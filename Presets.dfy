/** The builder's constant tables: per-blueprint default styles, the
    animation presets, and the keyframe text every generated document embeds. */
module Presets {
  import opened Text
  import opened Model

  /** The four blueprint names offered by the toolbox. */
  predicate IsKnownKind(kind: string)
  {
    kind == "Button" || kind == "Input" || kind == "Card" || kind == "Badge"
  }

  /** `{ ...defaultStyles[type] }`: a copy of the kind's defaults. Any other
      drop payload spreads `undefined` (or an inherited prototype member) and
      so yields no keys at all. */
  function DefaultStyles(kind: string): (r: Styles)
    ensures IsKnownKind(kind) ==> "animation" in r && r["animation"] == Str("none")
    ensures !IsKnownKind(kind) ==> r == map[]
  {
    if kind == "Button" then
      map["text" := Str("🚀 Click Me"),
          "background" := Str("linear-gradient(135deg,#667eea,#764ba2)"),
          "color" := Str("white"),
          "fontSize" := Num(16),
          "borderRadius" := Num(12),
          "padding" := Str("14px 28px"),
          "animation" := Str("none")]
    else if kind == "Input" then
      map["placeholder" := Str("Type here..."),
          "background" := Str("#1a1a2e"),
          "color" := Str("white"),
          "fontSize" := Num(15),
          "width" := Num(180),
          "height" := Num(40),
          "borderRadius" := Num(8),
          "animation" := Str("none")]
    else if kind == "Card" then
      map["title" := Str("✨ Card Title"),
          "text" := Str("This is a stylish card component."),
          "background" := Str("linear-gradient(135deg,#fdfcfb,#e2d1c3)"),
          "color" := Str("#333"),
          "width" := Num(220),
          "borderRadius" := Num(16),
          "padding" := Num(25),
          "animation" := Str("none")]
    else if kind == "Badge" then
      map["text" := Str("🔥 Hot Badge"),
          "background" := Str("linear-gradient(135deg,#ff416c,#ff4b2b)"),
          "color" := Str("white"),
          "fontSize" := Num(14),
          "borderRadius" := Num(20),
          "padding" := Str("8px 18px"),
          "animation" := Str("none")]
    else
      map[]
  }

  /** The style keys the generator's template for each kind interpolates
      (besides `animation`, which every kind reads). */
  function TemplateKeys(kind: string): set<string>
  {
    if kind == "Button" then {"background", "color", "borderRadius", "padding", "fontSize", "text"}
    else if kind == "Input" then {"placeholder", "background", "color", "borderRadius", "width", "height", "fontSize"}
    else if kind == "Card" then {"background", "color", "width", "borderRadius", "padding", "title", "text"}
    else if kind == "Badge" then {"background", "color", "borderRadius", "padding", "fontSize", "text"}
    else {}
  }

  /** A freshly dropped component has exactly the keys its template reads plus
      `animation`. */
  lemma DefaultsMatchTemplate(kind: string)
    requires IsKnownKind(kind)
    ensures DefaultStyles(kind).Keys == TemplateKeys(kind) + {"animation"}
  {
  }

  /** No default value prints as "undefined": numbers print as digits and
      every default text starts with something other than `u`. */
  lemma DefaultValuesDefined(kind: string, key: string)
    requires key in DefaultStyles(kind)
    ensures ValueText(DefaultStyles(kind)[key]) != "undefined"
  {
    var v := DefaultStyles(kind)[key];
    if v.Num? {
      assert ValueText(v) == IntToString(v.n);
      assert ValueText(v)[0] != 'u';
    } else {
      assert v.s[0] != 'u';
    }
  }

  /** A freshly dropped component of a known kind never prints "undefined"
      for a key its template reads. */
  lemma DefaultsNeverUndefined(kind: string, key: string)
    requires IsKnownKind(kind) && key in TemplateKeys(kind)
    ensures StyleText(DefaultStyles(kind), key) != "undefined"
  {
    DefaultsMatchTemplate(kind);
    DefaultValuesDefined(kind, key);
  }

  /** The animation presets: name to CSS `animation` shorthand. */
  const Animations: map<string, string> :=
    map["none" := "none",
        "bounce" := "bounce" + " 2s infinite",
        "fade" := "fadeIn" + " 1.5s ease-in-out",
        "rotate" := "spin" + " 3s linear infinite",
        "pulse" := "pulse" + " 2s infinite",
        "slide" := "slideIn" + " 1s ease-out"]

  /** `animations[s.animation] || "none"`: the preset named by the item's
      `animation` style; a missing key, a number, or an unknown name gives "none". */
  function ResolveAnimation(styles: Styles): (r: string)
    ensures r in Animations.Values
    ensures "animation" in styles && styles["animation"].Str? && styles["animation"].s in Animations
            ==> r == Animations[styles["animation"].s]
    ensures !("animation" in styles && styles["animation"].Str? && styles["animation"].s in Animations)
            ==> r == "none"
  {
    var preset :=
      if "animation" in styles && styles["animation"].Str? && styles["animation"].s in Animations
      then styles["animation"].s else "none";
    Animations[preset]
  }

  /** Presets resolved by name. */
  lemma ResolveBounceExample()
    ensures ResolveAnimation(map["animation" := Str("bounce")]) == "bounce 2s infinite"
  {
    assert "bounce" in Animations;
    assert Animations["bounce"] == "bounce 2s infinite";
  }

  lemma ResolveRotateExample()
    ensures ResolveAnimation(map["animation" := Str("rotate")]) == "spin 3s linear infinite"
  {
    assert "rotate" in Animations;
    assert Animations["rotate"] == "spin 3s linear infinite";
  }

  /** A number or a missing key falls back to "none". */
  lemma ResolveFallbackExamples()
    ensures ResolveAnimation(map["animation" := Num(3)]) == "none"
    ensures ResolveAnimation(map[]) == "none"
  {
  }

  /** One `@keyframes` rule of the fixed keyframe text. */
  function Keyframe(name: string, rules: string): string
  {
    "  " + ("@keyframes " + name + " {") + rules
  }

  const BounceRules: string := " \n    0%, 20%, 50%, 80%, 100% {transform: translateY(0);} \n    40% {transform: translateY(-20px);} \n    60% {transform: translateY(-10px);} \n  }"
  const FadeRules: string := " from {opacity: 0;} to {opacity: 1;} }"
  const SpinRules: string := " from {transform: rotate(0deg);} to {transform: rotate(360deg);} }"
  const PulseRules: string := " 0% {transform: scale(1);} 50% {transform: scale(1.1);} 100% {transform: scale(1);} }"
  const SlideRules: string := " from {transform: translateX(-100%);} to {transform: translateX(0);} }"

  /** The keyframe rules, in the order the keyframe text lists them. */
  const KeyframeRules: seq<string> :=
    [Keyframe("bounce", BounceRules), Keyframe("fadeIn", FadeRules), Keyframe("spin", SpinRules),
     Keyframe("pulse", PulseRules), Keyframe("slideIn", SlideRules)]

  /** The keyframe catalog, the same text for every document: the rules one
      per line, between two line breaks. */
  const KeyframesCSS: string := "\n" + Join(KeyframeRules) + "\n"

  lemma KeyframeDefines(name: string, rules: string)
    ensures Contains(Keyframe(name, rules), "@keyframes " + name + " {")
  {
    ContainsMiddle("  ", "@keyframes " + name + " {", rules);
  }

  /** Whatever one rule of the catalog contains, the catalog contains. */
  lemma CatalogContains(i: nat, t: string)
    requires i < |KeyframeRules|
    requires Contains(KeyframeRules[i], t)
    ensures Contains(KeyframesCSS, t)
  {
    PartAtOffset(KeyframeRules, i);
    OccursContains(Join(KeyframeRules), KeyframeRules[i], PartOffset(KeyframeRules, i));
    ContainsWithin("\n", Join(KeyframeRules), "\n", KeyframeRules[i]);
    ContainsTransitive(KeyframesCSS, KeyframeRules[i], t);
  }

  /** Every preset other than "none" names, as its first word, a keyframe
      rule that the keyframe text defines. */
  lemma PresetKeyframesDefined(name: string)
    requires name in Animations && name != "none"
    ensures Contains(KeyframesCSS, "@keyframes " + FirstWord(Animations[name]) + " {")
  {
    if name == "bounce" {
      KeyframePreset(name, 0, "bounce", BounceRules, "2s infinite");
    } else if name == "fade" {
      KeyframePreset(name, 1, "fadeIn", FadeRules, "1.5s ease-in-out");
    } else if name == "rotate" {
      KeyframePreset(name, 2, "spin", SpinRules, "3s linear infinite");
    } else if name == "pulse" {
      KeyframePreset(name, 3, "pulse", PulseRules, "2s infinite");
    } else {
      KeyframePreset(name, 4, "slideIn", SlideRules, "1s ease-out");
    }
  }

  lemma KeyframePreset(name: string, i: nat, word: string, rules: string, rest: string)
    requires name in Animations && Animations[name] == word + " " + rest
    requires i < |KeyframeRules| && KeyframeRules[i] == Keyframe(word, rules)
    requires ' ' !in word
    ensures Contains(KeyframesCSS, "@keyframes " + FirstWord(Animations[name]) + " {")
  {
    FirstWordOf(word, rest);
    KeyframeDefines(word, rules);
    CatalogContains(i, "@keyframes " + word + " {");
  }
}
