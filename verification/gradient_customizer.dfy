/** src/components/GradientCustomizer.tsx: the `linear-gradient()` value
    (section 3.1 of CSS Images Module Level 3) the customizer builds from two
    colours and an angle, the preset buttons, and facts about the
    GRADIENT_PRESETS table of src/types/profile.ts. */
module GradientCustomizer {
  import opened Wrappers
  import opened Text
  import opened ProfileTypes
  import opened WalletCard

  /** `linear-gradient(${angle}deg, ${c1} 0%, ${c2} 100%)`. */
  function LinearGradient(angle: nat, c1: string, c2: string): string {
    "linear-gradient(" + NatToDecimal(angle) + "deg, " + c1 + " 0%, " + c2 + " 100%)"
  }

  /** The customizer's own state: the two colour fields and the slider. */
  datatype CustomizerState = CustomizerState(color1: string, color2: string, angle: nat)

  /** The slider's range. */
  const MaxAngle: nat := 360

  const InitialState: CustomizerState := CustomizerState("#667eea", "#764ba2", 135)

  /** The slider's `onChange`: a range input only reports values in
      [0, 360], so a value beyond the top reads as 360. */
  function SetAngle(st: CustomizerState, v: nat): (r: CustomizerState)
    ensures r.angle <= MaxAngle
    ensures v <= MaxAngle ==> r.angle == v
    ensures r.color1 == st.color1 && r.color2 == st.color2
  {
    st.(angle := if v > MaxAngle then MaxAngle else v)
  }

  /** The preview box's `background`. */
  function PreviewBackground(st: CustomizerState): string {
    LinearGradient(st.angle, st.color1, st.color2)
  }

  /** Where the pieces of a gradient value sit: the function name, the angle's
      digits and `deg, `, the first colour and ` 0%, `, the second colour
      and ` 100%)`. */
  predicate GradientLayout(v: string, angle: nat, c1: string, c2: string) {
    var d := NatToDecimal(angle);
    var p1 := 21 + |d|;
    var p2 := p1 + |c1| + 5;
    && |v| == p2 + |c2| + 6
    && v[..16] == "linear-gradient("
    && v[16..16 + |d|] == d
    && v[16 + |d|..p1] == "deg, "
    && v[p1..p1 + |c1|] == c1
    && v[p1 + |c1|..p2] == " 0%, "
    && v[p2..p2 + |c2|] == c2
    && v[p2 + |c2|..] == " 100%)"
  }

  lemma LinearGradientLayout(angle: nat, c1: string, c2: string)
    ensures GradientLayout(LinearGradient(angle, c1, c2), angle, c1, c2)
  {
    var d := NatToDecimal(angle);
    var head := "linear-gradient(" + d + "deg, ";
    var v := LinearGradient(angle, c1, c2);
    assert v == head + c1 + " 0%, " + c2 + " 100%)";
    assert head[..16] == "linear-gradient(" && head[16..16 + |d|] == d && head[16 + |d|..] == "deg, ";
  }

  /** `handleCustomGradient`: the value handed to `onChange`, the same text
      the preview box shows. */
  function ApplyCustomGradient(st: CustomizerState): (v: string)
    ensures v == PreviewBackground(st)
    ensures GradientLayout(v, st.angle, st.color1, st.color2)
  {
    LinearGradientLayout(st.angle, st.color1, st.color2);
    LinearGradient(st.angle, st.color1, st.color2)
  }

  /** In a gradient value the angle's digits run from position 16 up to the
      `d` of `deg`, the first non-digit. */
  lemma AngleDigitsEnd(v: string, angle: nat, c1: string, c2: string)
    requires GradientLayout(v, angle, c1, c2)
    ensures var d := NatToDecimal(angle);
            16 + |d| < |v| && (forall k :: 16 <= k < 16 + |d| ==> IsDigit(v[k])) && !IsDigit(v[16 + |d|])
  {
    var d := NatToDecimal(angle);
    forall k | 16 <= k < 16 + |d|
      ensures IsDigit(v[k])
    {
      assert v[k] == v[16..16 + |d|][k - 16];
    }
    assert v[16 + |d|] == v[16 + |d|..21 + |d|][0];
  }

  /** Two runs of digits starting at one position and each ended by a
      non-digit have the same length. */
  lemma DigitRunsAgree(v: string, start: nat, m: nat, n: nat)
    requires start + m < |v| && start + n < |v|
    requires forall k :: start <= k < start + m ==> IsDigit(v[k])
    requires forall k :: start <= k < start + n ==> IsDigit(v[k])
    requires !IsDigit(v[start + m]) && !IsDigit(v[start + n])
    ensures m == n
  {
  }

  /** The applied value determines the angle and both colours once the first
      colours are known to have one length. The colour pickers report
      `#rrggbb`, but the text fields beside them take any text, and then a
      colour containing ` 0%, ` can be read two ways. */
  lemma CustomGradientReadBack(a: CustomizerState, b: CustomizerState)
    requires |a.color1| == |b.color1|
    requires ApplyCustomGradient(a) == ApplyCustomGradient(b)
    ensures a == b
  {
    var v := ApplyCustomGradient(a);
    var da := NatToDecimal(a.angle);
    var db := NatToDecimal(b.angle);
    AngleDigitsEnd(v, a.angle, a.color1, a.color2);
    AngleDigitsEnd(v, b.angle, b.color1, b.color2);
    DigitRunsAgree(v, 16, |da|, |db|);
    assert da == v[16..16 + |da|] == db;
    NatToDecimalInjective(a.angle, b.angle);
  }

  /** Without the length condition the read-back fails: typed colours that
      contain ` 0%, ` split the same value at two places. */
  lemma CustomGradientTypedColoursAmbiguous()
    ensures var a := CustomizerState("x 0%, y", "z", 0);
            var b := CustomizerState("x", "y 0%, z", 0);
            a != b && ApplyCustomGradient(a) == ApplyCustomGradient(b)
  {
    GradientMiddle(0, "x 0%, y", "z");
    GradientMiddle(0, "x", "y 0%, z");
    assert "x 0%, y" + " 0%, " + "z" == "x" + " 0%, " + "y 0%, z";
  }

  /** A gradient value as its head, the colour pair and its tail. */
  lemma GradientMiddle(angle: nat, c1: string, c2: string)
    ensures LinearGradient(angle, c1, c2)
              == ("linear-gradient(" + NatToDecimal(angle) + "deg, ") + (c1 + " 0%, " + c2) + " 100%)"
  {
  }

  /** A preset button's `onClick`: the preset's value, verbatim. */
  function SelectPreset(p: GradientPreset): (v: string)
    ensures v == p.value
  {
    p.value
  }

  /** A preset button is highlighted when the current value is its value. */
  predicate Highlighted(value: string, p: GradientPreset) {
    value == p.value
  }

  lemma NatToDecimal135()
    ensures NatToDecimal(135) == "135"
  {
    assert NatToDecimal(1) == "1";
    assert NatToDecimal(13) == "13";
  }

  /** The template's text up to the first colour, at 135 degrees. */
  lemma Prefix135()
    ensures "linear-gradient(" + NatToDecimal(135) + "deg, " == "linear-gradient(135deg, "
  {
    NatToDecimal135();
  }

  /** Applying the untouched customizer gives the first preset. */
  lemma InitialStateIsFirstPreset()
    ensures ApplyCustomGradient(InitialState) == GradientPresets[0].value
  {
    Prefix135();
  }

  /** Each preset's value is the 135-degree gradient of its two colours. */
  lemma PresetsFollowTemplate()
    ensures |GradientPresets| == 10
    ensures forall i :: 0 <= i < |GradientPresets| ==>
              |GradientPresets[i].colors| == 2
              && GradientPresets[i].value
                   == LinearGradient(135, GradientPresets[i].colors[0], GradientPresets[i].colors[1])
  {
    Prefix135();
  }

  /** Every preset colour is a six-digit hex colour that the card's
      `hexToRgb` reads. */
  lemma PresetColorsAreHex()
    ensures forall i, j :: 0 <= i < |GradientPresets| && 0 <= j < |GradientPresets[i].colors| ==>
              ParseHexColor(GradientPresets[i].colors[j]).Some?
  {
    FirstPresetColorsAreHex();
    LastPresetColorsAreHex();
  }

  lemma FirstPresetColorsAreHex()
    ensures forall i, j :: 0 <= i < 5 && 0 <= j < |GradientPresets[i].colors| ==>
              ParseHexColor(GradientPresets[i].colors[j]).Some?
  {
  }

  lemma LastPresetColorsAreHex()
    ensures forall i, j :: 5 <= i < 10 && 0 <= j < |GradientPresets[i].colors| ==>
              ParseHexColor(GradientPresets[i].colors[j]).Some?
  {
  }

  /** Preset names are pairwise distinct, and so are preset values. */
  lemma PresetsDistinct()
    ensures forall i, j :: 0 <= i < j < |GradientPresets| ==>
              GradientPresets[i].name != GradientPresets[j].name
              && GradientPresets[i].value != GradientPresets[j].value
  {
    PresetsFollowTemplate();
    forall i | 0 <= i < |GradientPresets|
      ensures GradientPresets[i].value[24..31] == GradientPresets[i].colors[0]
    {
      FirstColorAt(GradientPresets[i].colors[0], GradientPresets[i].colors[1]);
    }
  }

  /** A 135-degree gradient shows its first colour from the 25th character. */
  lemma FirstColorAt(c1: string, c2: string)
    ensures LinearGradient(135, c1, c2)[24..24 + |c1|] == c1
  {
    Prefix135();
    var p := "linear-gradient(135deg, ";
    assert LinearGradient(135, c1, c2) == p + (c1 + (" 0%, " + c2 + " 100%)"));
  }

  /** After a preset click exactly that preset is highlighted. */
  lemma PresetClickHighlightsOnlyIt(k: nat)
    requires k < |GradientPresets|
    ensures forall i :: 0 <= i < |GradientPresets| ==>
              (Highlighted(SelectPreset(GradientPresets[k]), GradientPresets[i]) <==> i == k)
  {
    PresetsDistinct();
  }
}
