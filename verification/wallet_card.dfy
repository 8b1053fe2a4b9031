/** The computed parts of src/components/WalletCard.tsx: `hexToRgb` (the
    six-digit hex colour notation of section 5.2 of CSS Color Module Level
    4, with or without `#`), the card's profile link, the download file name
    and the choice between a QR code and the "Sem link público" label. */
module WalletCard {
  import opened Wrappers
  import opened Text
  import opened ProfileTypes
  import opened ProfileEditor

  datatype Rgb = Rgb(r: nat, g: nat, b: nat)

  predicate AllHex(s: string) {
    forall i :: 0 <= i < |s| ==> IsHexDigit(s[i])
  }

  /** The value of a two-digit hex field. */
  function ByteValue(hi: char, lo: char): (v: nat)
    requires IsHexDigit(hi) && IsHexDigit(lo)
    ensures v < 256
  {
    16 * HexValue(hi) + HexValue(lo)
  }

  /** The six digits the pattern `^#?([a-f\d]{2})([a-f\d]{2})([a-f\d]{2})$`
      (case-insensitive) captures, or None when it does not match. */
  function HexColorDigits(hex: string): (d: Option<string>)
    ensures d.Some? ==> |d.value| == 6 && AllHex(d.value)
    ensures d.Some? ==> hex == d.value || hex == "#" + d.value
    ensures (|hex| == 6 && AllHex(hex)) ==> d == Some(hex)
    ensures (|hex| == 7 && hex[0] == '#' && AllHex(hex[1..])) ==> d == Some(hex[1..])
  {
    if |hex| == 7 && hex[0] == '#' && AllHex(hex[1..]) then
      assert hex == "#" + hex[1..];
      Some(hex[1..])
    else if |hex| == 6 && AllHex(hex) then Some(hex)
    else None
  }

  /** The three captured byte pairs, as numbers. */
  function ParseHexColor(hex: string): (c: Option<Rgb>)
    ensures c.Some? <==> HexColorDigits(hex).Some?
    ensures c.Some? ==> c.value.r < 256 && c.value.g < 256 && c.value.b < 256
  {
    match HexColorDigits(hex)
    case None => None
    case Some(d) => Some(Rgb(ByteValue(d[0], d[1]), ByteValue(d[2], d[3]), ByteValue(d[4], d[5])))
  }

  /** The colour used when the text is not a six-digit hex colour. */
  const Gray: Rgb := Rgb(128, 128, 128)

  /** `${r}, ${g}, ${b}`. */
  function RgbText(c: Rgb): string {
    NatToDecimal(c.r) + ", " + NatToDecimal(c.g) + ", " + NatToDecimal(c.b)
  }

  /** `hexToRgb`. */
  function HexToRgb(hex: string): (s: string)
    ensures ParseHexColor(hex).Some? ==> s == RgbText(ParseHexColor(hex).value)
    ensures ParseHexColor(hex).None? ==> s == RgbText(Gray)
  {
    RgbText(ParseHexColor(hex).GetOr(Gray))
  }

  /** Short (`#fff`), eight-digit and otherwise decorated inputs all fall back
      to gray: only six digits, optionally after `#`, are read. */
  lemma OnlySixDigitFormMatches(hex: string)
    requires |hex| != 6 && |hex| != 7
    ensures ParseHexColor(hex).None? && HexToRgb(hex) == RgbText(Gray)
  {
  }

  /** `#rrggbb` in lower case. */
  function HexColor(c: Rgb): (s: string)
    requires c.r < 256 && c.g < 256 && c.b < 256
    ensures |s| == 7 && s[0] == '#' && AllHex(s[1..])
  {
    var s := "#" + [HexDigitLower(c.r / 16), HexDigitLower(c.r % 16),
                    HexDigitLower(c.g / 16), HexDigitLower(c.g % 16),
                    HexDigitLower(c.b / 16), HexDigitLower(c.b % 16)];
    assert forall i :: 1 <= i < 7 ==> IsHexDigit(s[i]);
    s
  }

  /** Writing a colour and reading it back gives the colour. */
  lemma HexColorRoundTrip(c: Rgb)
    requires c.r < 256 && c.g < 256 && c.b < 256
    ensures ParseHexColor(HexColor(c)) == Some(c)
  {
    var s := HexColor(c);
    assert HexColorDigits(s) == Some(s[1..]);
  }

  /** Re-encoding the components read from a hex colour reproduces its six
      digits, up to case. */
  lemma ParsedColorReencodes(hex: string)
    requires ParseHexColor(hex).Some?
    ensures HexColor(ParseHexColor(hex).value) == "#" + AsciiLowerString(HexColorDigits(hex).value)
  {
    var d := HexColorDigits(hex).value;
    var c := ParseHexColor(hex).value;
    forall i | 0 <= i < 6 ensures HexDigitLower(HexValue(d[i])) == AsciiLower(d[i]) {
      HexDigitRoundTrip(d[i]);
    }
    ByteDigits(d[0], d[1]);
    ByteDigits(d[2], d[3]);
    ByteDigits(d[4], d[5]);
    var lower := AsciiLowerString(d);
    assert HexColor(c)[1..] == lower;
  }

  /** The two hex digits of a byte value are the digits it was read from. */
  lemma ByteDigits(hi: char, lo: char)
    requires IsHexDigit(hi) && IsHexDigit(lo)
    ensures ByteValue(hi, lo) / 16 == HexValue(hi) && ByteValue(hi, lo) % 16 == HexValue(lo)
  {
  }

  /** The card's `profileUrl`: the public link for a non-empty slug, else the
      bare origin. */
  function WalletProfileUrl(origin: string, slug: Option<string>): (url: string)
    ensures slug.Some? && slug.value != "" ==> url == PublicProfileUrl(origin, slug.value)
    ensures slug.None? || slug == Some("") ==> url == origin
  {
    if slug.Some? && slug.value != "" then PublicProfileUrl(origin, slug.value) else origin
  }

  /** The card links where the editor does, except that it falls back to the
      origin where the editor shows no link. */
  lemma WalletLinkAgreesWithEditor(origin: string, slug: Option<string>)
    ensures WalletProfileUrl(origin, slug)
              == if EditorProfileUrl(origin, slug) == "" then origin else EditorProfileUrl(origin, slug)
  {
  }

  /** `carteira-${profile.slug || 'catolica'}.png`. */
  function DownloadFileName(slug: Option<string>): (name: string)
    ensures slug.Some? && slug.value != "" ==> name == "carteira-" + slug.value + ".png"
    ensures slug.None? || slug == Some("") ==> name == "carteira-catolica.png"
  {
    "carteira-" + (if slug.Some? && slug.value != "" then slug.value else "catolica") + ".png"
  }

  /** Distinct slugs download under distinct names; only the slug
      "catolica" shares its name with a card without a slug. */
  lemma DownloadFileNameInjective(s1: Option<string>, s2: Option<string>)
    requires s1.Some? && s1.value != "" && s2.Some? && s2.value != ""
    requires DownloadFileName(s1) == DownloadFileName(s2)
    ensures s1 == s2
  {
    var n := DownloadFileName(s1);
    assert n[9..|n| - 4] == s1.value;
    assert DownloadFileName(s2)[9..|n| - 4] == s2.value;
  }

  lemma CatolicaSlugCollides()
    ensures DownloadFileName(Some("catolica")) == DownloadFileName(None)
  {
  }

  /** The bottom of the card: the caption and, when there is a slug, the QR
      code's value. */
  datatype LinkArea = LinkArea(caption: string, qrValue: Option<string>)

  const NoPublicLink: string := "Sem link p\U{FA}blico"

  function WalletLinkArea(origin: string, slug: Option<string>): (a: LinkArea)
    ensures a.qrValue.Some? <==> slug.Some? && slug.value != ""
    ensures a.qrValue.None? <==> a.caption == NoPublicLink
    ensures a.qrValue.Some? ==> a.qrValue.value == WalletProfileUrl(origin, slug)
  {
    if slug.Some? && slug.value != "" then
      var caption := "/p/" + slug.value;
      assert caption[0] != NoPublicLink[0];
      LinkArea(caption, Some(WalletProfileUrl(origin, slug)))
    else LinkArea(NoPublicLink, None)
  }

  /** The QR code encodes the origin followed by the caption shown next to it. */
  lemma QrEncodesCaption(origin: string, slug: Option<string>)
    requires WalletLinkArea(origin, slug).qrValue.Some?
    ensures var a := WalletLinkArea(origin, slug);
            a.qrValue.value == origin + a.caption
  {
    assert origin + "/p/" + slug.value == origin + ("/p/" + slug.value);
  }
}
