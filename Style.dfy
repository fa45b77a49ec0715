/** RgbColor and PresentationStyle: a colour of three byte components, its
    true-colour foreground code (the SGR control function of section 8.3.117
    of ECMA-48 with the parameters 38;2;R;G;B), and the six colours of a
    style with their defaults. */
module Style {
  import opened Wrappers
  import opened Seqs
  import opened Text

  /** System.Byte: every colour component lies in 0..255. */
  newtype byte = x: int | 0 <= x < 256

  /** A record struct, so two colours are equal exactly when their components
      are. */
  datatype RgbColor = RgbColor(r: byte, g: byte, b: byte)

  /** ESC [ (the control sequence introducer), then the parameters 38 and 2,
      which select a direct foreground colour. */
  const ForegroundPrefix: string := "\U{1b}[38;2;"

  /** ToAnsiForegroundCode: the components in decimal, separated by ';', and
      the final byte 'm'. */
  function AnsiForegroundCode(c: RgbColor): (s: string)
    ensures StartsWith(s, ForegroundPrefix) && s[|s| - 1] == 'm'
    ensures s[|ForegroundPrefix|..|s| - 1] == Join(Components(c), ";")
  {
    var s := ForegroundPrefix + ToDecimal(c.r as nat) + ";" + ToDecimal(c.g as nat) + ";" + ToDecimal(c.b as nat) + "m";
    ComponentsJoined(c);
    MiddleOf(ForegroundPrefix, Join(Components(c), ";"), "m");
    s
  }

  lemma ComponentsJoined(c: RgbColor)
    ensures ForegroundPrefix + ToDecimal(c.r as nat) + ";" + ToDecimal(c.g as nat) + ";" + ToDecimal(c.b as nat) + "m"
      == ForegroundPrefix + Join(Components(c), ";") + "m"
  {
    var parts := Components(c);
    var r := parts[0];
    var g := parts[1];
    var b := parts[2];
    assert parts[1..][1..] == [b];
    assert Join(parts[1..], ";") == g + ";" + b;
    assert Join(parts, ";") == r + ";" + (g + ";" + b);
  }

  /** The three parameters after 38;2, in decimal. */
  function Components(c: RgbColor): seq<string> {
    [ToDecimal(c.r as nat), ToDecimal(c.g as nat), ToDecimal(c.b as nat)]
  }

  /** A decimal parameter that fits a byte. */
  function ParseByte(s: string): (r: Option<byte>)
    ensures r.Some? <==> ParseDecimal(s).Some? && ParseDecimal(s).value < 256
    ensures r.Some? ==> r.value as nat == ParseDecimal(s).value
  {
    match ParseDecimal(s)
    case None => None
    case Some(n) => if n < 256 then Some(n as byte) else None
  }

  /** Reads a true-colour foreground code back: the prefix, three decimal
      byte parameters separated by ';', and 'm'. */
  function ParseForegroundCode(s: string): (r: Option<RgbColor>)
    ensures r.Some? ==> StartsWith(s, ForegroundPrefix) && s[|s| - 1] == 'm'
  {
    if |s| <= |ForegroundPrefix| || !StartsWith(s, ForegroundPrefix) || s[|s| - 1] != 'm' then None
    else
      var parts := Split(s[|ForegroundPrefix|..|s| - 1], ";");
      if |parts| != 3 then None
      else
        match (ParseByte(parts[0]), ParseByte(parts[1]), ParseByte(parts[2]))
        case (Some(r), Some(g), Some(b)) => Some(RgbColor(r, g, b))
        case _ => None
  }

  /** The foreground code of a colour reads back as that colour. */
  lemma ForegroundCodeRoundTrip(c: RgbColor)
    ensures ParseForegroundCode(AnsiForegroundCode(c)) == Some(c)
  {
    var s := AnsiForegroundCode(c);
    ComponentsSplit(c);
    ParseForegroundCodeOf(s, c);
  }

  /** A code whose parameters after the prefix split into the decimal
      components of c reads back as c. */
  lemma ParseForegroundCodeOf(s: string, c: RgbColor)
    requires |s| > |ForegroundPrefix| && StartsWith(s, ForegroundPrefix) && s[|s| - 1] == 'm'
    requires Split(s[|ForegroundPrefix|..|s| - 1], ";") == Components(c)
    ensures ParseForegroundCode(s) == Some(c)
  {
    var parts := Components(c);
    assert ParseByte(parts[0]) == Some(c.r);
    assert ParseByte(parts[1]) == Some(c.g);
    assert ParseByte(parts[2]) == Some(c.b);
  }

  /** The three decimal parameters, joined with ';', split back apart. */
  lemma ComponentsSplit(c: RgbColor)
    ensures Split(Join(Components(c), ";"), ";") == Components(c)
  {
    var parts := Components(c);
    forall k | 0 <= k < 3 ensures ';' !in parts[k] {
      assert AllDigits(parts[k]);
    }
    SplitJoinChar(parts, ';');
  }

  /** Different colours have different foreground codes. */
  lemma ForegroundCodeInjective(c: RgbColor, d: RgbColor)
    requires AnsiForegroundCode(c) == AnsiForegroundCode(d)
    ensures c == d
  {
    ForegroundCodeRoundTrip(c);
    ForegroundCodeRoundTrip(d);
  }

  /** The six colours of a presentation. */
  datatype PresentationStyle = PresentationStyle(
    header1: RgbColor,
    header2: RgbColor,
    normalText: RgbColor,
    hyperlinkText: RgbColor,
    selectorColor: RgbColor,
    selectionColor: RgbColor)

  /** PresentationStyle.Default. */
  const Default: PresentationStyle := PresentationStyle(
    RgbColor(0, 255, 255),
    RgbColor(0, 128, 192),
    RgbColor(255, 255, 255),
    RgbColor(0, 0, 255),
    RgbColor(255, 0, 0),
    RgbColor(0, 255, 0))
}
