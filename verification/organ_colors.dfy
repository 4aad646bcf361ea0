/**
 * src/utils/organColors.ts: the colour of an organ, looked up in a fixed table with a
 * grey default, and the red, green and blue channels read back from its hex form.
 */
module OrganColors {
  import opened Collections

  /** `organColorMap`. */
  const OrganColorMap: map<string, string> := map[
    "Breast" := "#5470c6",
    "Lung" := "#91cc75",
    "Colon" := "#fac858",
    "Colorectal" := "#fac858",
    "Brain" := "#ee6666",
    "Stomach" := "#73c0de"
  ]

  const DefaultColor: string := "#6B7280"

  /** `organColorMap[organ] || "#6B7280"`: a missing entry, or an empty one, falls back to grey. */
  function GetOrganColor(organ: string): string
  {
    if organ in OrganColorMap && |OrganColorMap[organ]| > 0 then OrganColorMap[organ] else DefaultColor
  }

  /**
   * The six organs of the table get their colours, Colon and Colorectal the same yellow,
   * and any other name the grey default.
   */
  lemma OrganColorLookup(organ: string)
    ensures organ == "Breast" ==> GetOrganColor(organ) == "#5470c6"
    ensures organ == "Lung" ==> GetOrganColor(organ) == "#91cc75"
    ensures organ == "Colon" || organ == "Colorectal" ==> GetOrganColor(organ) == "#fac858"
    ensures organ == "Brain" ==> GetOrganColor(organ) == "#ee6666"
    ensures organ == "Stomach" ==> GetOrganColor(organ) == "#73c0de"
    ensures organ !in {"Breast", "Lung", "Colon", "Colorectal", "Brain", "Stomach"} ==>
      GetOrganColor(organ) == "#6B7280"
    ensures GetOrganColor("Colon") == GetOrganColor("Colorectal")
  {
  }

  // ---------------------------------------------------------------------------------
  // Hex parsing

  predicate IsHexDigit(c: char)
  {
    '0' <= c <= '9' || 'a' <= c <= 'f' || 'A' <= c <= 'F'
  }

  function DigitValue(c: char): (v: nat)
    requires IsHexDigit(c)
    ensures v < 16
  {
    if '0' <= c <= '9' then (c as int - '0' as int)
    else if 'a' <= c <= 'f' then (c as int - 'a' as int) + 10
    else (c as int - 'A' as int) + 10
  }

  /** The number a run of hex digits denotes, most significant first. */
  function HexValue(s: string): (v: nat)
    requires forall i :: 0 <= i < |s| ==> IsHexDigit(s[i])
  {
    if s == [] then 0 else HexValue(s[..|s| - 1]) * 16 + DigitValue(s[|s| - 1])
  }

  /** The length of the longest prefix of hex digits. */
  function LeadingHexDigits(s: string): (n: nat)
    ensures n <= |s|
    ensures forall i :: 0 <= i < n ==> IsHexDigit(s[i])
    ensures n < |s| ==> !IsHexDigit(s[n])
  {
    if s == [] || !IsHexDigit(s[0]) then 0 else 1 + LeadingHexDigits(s[1..])
  }

  /**
   * `parseInt(s, 16)`: the value of the leading hex digits, or `None` for `NaN` when
   * there are none.
   */
  function ParseHex(s: string): Option<nat>
  {
    var n := LeadingHexDigits(s);
    if n == 0 then None else Some(HexValue(s[..n]))
  }

  /** `s.slice(start, end)` for non-negative bounds, which are clamped to the string. */
  function Slice(s: string, start: nat, end: nat): (r: string)
    ensures start <= end <= |s| ==> r == s[start..end]
  {
    var e := if end <= |s| then end else |s|;
    var b := if start <= e then start else e;
    s[b..e]
  }

  /** Channel `i` (0 red, 1 green, 2 blue): `parseInt(color.slice(2i + 1, 2i + 3), 16)`. */
  function Channel(color: string, i: nat): Option<nat>
  {
    ParseHex(Slice(color, 2 * i + 1, 2 * i + 3))
  }

  /** "#" followed by six hex digits. */
  predicate IsHexColor(color: string)
  {
    |color| == 7 && color[0] == '#' && forall i :: 1 <= i < 7 ==> IsHexDigit(color[i])
  }

  /** Every colour the lookup returns is a hex colour. */
  lemma OrganColorIsHex(organ: string)
    ensures IsHexColor(GetOrganColor(organ))
  {
    var c := GetOrganColor(organ);
    assert c in {"#5470c6", "#91cc75", "#fac858", "#ee6666", "#73c0de", "#6B7280"};
  }

  /** A hex colour's channels are the values of its digit pairs, each between 0 and 255. */
  lemma HexColorChannels(color: string, i: nat)
    requires IsHexColor(color) && i < 3
    ensures Channel(color, i) == Some(DigitValue(color[2 * i + 1]) * 16 + DigitValue(color[2 * i + 2]))
    ensures Channel(color, i).value <= 255
  {
    var pair := color[2 * i + 1..2 * i + 3];
    assert Slice(color, 2 * i + 1, 2 * i + 3) == pair;
    assert pair[0] == color[2 * i + 1] && pair[1] == color[2 * i + 2];
    assert pair[1..][1..] == [];
    assert LeadingHexDigits(pair) == 2;
    assert pair[..2] == pair;
    assert pair[..1][..0] == [];
    assert HexValue(pair[..1]) == DigitValue(pair[0]);
    assert HexValue(pair) == DigitValue(pair[0]) * 16 + DigitValue(pair[1]);
  }

  /** The three channels, `r`, `g` and `b`, and the opacity of `getOrganColorWithOpacity`. */
  datatype Rgba = Rgba(r: Option<nat>, g: Option<nat>, b: Option<nat>, opacity: real)

  function OrganColorWithOpacity(organ: string, opacity: real): Rgba
  {
    var color := GetOrganColor(organ);
    Rgba(Channel(color, 0), Channel(color, 1), Channel(color, 2), opacity)
  }

  /** Every channel is a number between 0 and 255, and the opacity is passed through. */
  lemma OrganColorWithOpacityChannels(organ: string, opacity: real)
    ensures var c := OrganColorWithOpacity(organ, opacity);
      && c.r.Some? && c.g.Some? && c.b.Some?
      && c.r.value <= 255 && c.g.value <= 255 && c.b.value <= 255
      && c.opacity == opacity
  {
    var color := GetOrganColor(organ);
    OrganColorIsHex(organ);
    HexColorChannels(color, 0);
    HexColorChannels(color, 1);
    HexColorChannels(color, 2);
  }

  /** An organ outside the table gets the grey of `#6B7280`: red 107, green 114, blue 128. */
  lemma UnknownOrganChannels(organ: string, opacity: real)
    requires organ !in OrganColorMap
    ensures OrganColorWithOpacity(organ, opacity) == Rgba(Some(107), Some(114), Some(128), opacity)
  {
    assert IsHexColor(DefaultColor);
    HexColorChannels(DefaultColor, 0);
    HexColorChannels(DefaultColor, 1);
    HexColorChannels(DefaultColor, 2);
  }
}
