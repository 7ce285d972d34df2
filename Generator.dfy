/** The code generator `getBaseHTML`: canvas items and the canvas background
    to one standalone HTML document. Every value is interpolated raw. */
module Generator {
  import opened Text
  import opened Model
  import opened Presets

  /** The declarations every fragment starts its style attribute with. */
  function BaseStyle(it: Item): string
  {
    "position:absolute; top:" + CoordText(it.y) + "px; left:" + CoordText(it.x)
    + "px; animation:" + ResolveAnimation(it.styles) + ";"
  }

  /** The opening tag up to its style attribute. */
  function OpenTag(kind: string, s: Styles): string
  {
    if kind == "Button" then "<button"
    else if kind == "Input" then "<input " + ("placeholder=\"" + StyleText(s, "placeholder") + "\"")
    else if kind == "Card" then "<div"
    else if kind == "Badge" then "<span"
    else ""
  }

  /** The kind-specific declaration lines after the base style. */
  function KindRules(kind: string, s: Styles): string
  {
    var bg, color, radius := StyleText(s, "background"), StyleText(s, "color"), StyleText(s, "borderRadius");
    if kind == "Button" then ButtonRules(bg, color, radius, StyleText(s, "padding"), StyleText(s, "fontSize"))
    else if kind == "Input" then
      InputRules(bg, color, radius, StyleText(s, "width"), StyleText(s, "height"), StyleText(s, "fontSize"))
    else if kind == "Card" then CardRules(bg, color, StyleText(s, "width"), radius, StyleText(s, "padding"))
    else if kind == "Badge" then BadgeRules(bg, color, radius, StyleText(s, "padding"), StyleText(s, "fontSize"))
    else ""
  }

  function ButtonRules(bg: string, color: string, radius: string, padding: string, size: string): string
  {
    "\n          background:" + bg + ";\n          color:" + color
    + ";\n          border:none;\n          border-radius:" + radius
    + "px;\n          padding:" + padding + ";\n          font-size:" + size
    + "px;\n          cursor:pointer;\n        "
  }

  function InputRules(bg: string, color: string, radius: string, width: string, height: string, size: string): string
  {
    "\n          background:" + bg + ";\n          color:" + color
    + ";\n          border:2px solid #667eea;\n          border-radius:" + radius
    + "px;\n          width:" + width + "px;\n          height:" + height
    + "px;\n          font-size:" + size + "px;\n          padding:8px;\n        "
  }

  function CardRules(bg: string, color: string, width: string, radius: string, padding: string): string
  {
    "\n          background:" + bg + ";\n          color:" + color
    + ";\n          width:" + width + "px;\n          border-radius:" + radius
    + "px;\n          padding:" + padding + "px;\n        "
  }

  function BadgeRules(bg: string, color: string, radius: string, padding: string, size: string): string
  {
    "\n          background:" + bg + ";\n          color:" + color
    + ";\n          border-radius:" + radius + "px;\n          padding:" + padding
    + ";\n          font-size:" + size + "px;\n          display:inline-block;\n        "
  }

  /** From the closing quote of the style attribute to the end of the element. */
  function Close(kind: string, s: Styles): string
  {
    if kind == "Button" then "\">" + StyleText(s, "text") + "</button>"
    else if kind == "Input" then "\" />"
    else if kind == "Card" then
      "\">\n          " + ("<h3>" + StyleText(s, "title") + "</h3>")
      + ("\n          " + ("<p>" + StyleText(s, "text") + "</p>") + "\n        </div>")
    else if kind == "Badge" then "\">" + StyleText(s, "text") + "</span>"
    else ""
  }

  /** The `switch (item.type)` of the template: one element per known kind,
      the empty string for any other kind. */
  function Fragment(it: Item): string
  {
    if IsKnownKind(it.kind) then
      OpenTag(it.kind, it.styles) + " style=\"" + BaseStyle(it) + KindRules(it.kind, it.styles)
      + Close(it.kind, it.styles)
    else ""
  }

  /** `items.map(...)`. */
  function Fragments(items: seq<Item>): seq<string>
  {
    MapText(Fragment, items)
  }

  /** `items.map(...).join("\n")`. */
  function Body(items: seq<Item>): string
  {
    Join(Fragments(items))
  }

  /** The head of the document up to the body rule's background value. */
  const Preamble: string :=
    "\n<!DOCTYPE html><html lang=\"en\"><head>\n<meta charset=\"UTF-8\" />\n"
    + "<meta name=\"viewport\" content=\"width=device-width, initial-scale=1.0\" />\n"
    + "<title>Generated UI</title>\n<style>\n  body { font-family: Segoe UI, sans-serif; "

  function BodyRule(bg: string): string
  {
    "background:" + bg + ";"
  }

  const CanvasRules: string :=
    " padding:40px; margin:0; }\n  .canvas { position:relative; width:100%; height:100vh; }\n  "

  const StyleClose: string := "\n</style>\n</head><body>\n<div class=\"canvas\">\n"

  /** Everything before the first fragment. */
  function DocHead(bg: string): string
  {
    Preamble + BodyRule(bg) + CanvasRules + KeyframesCSS + StyleClose
  }

  const DocTail: string := "\n</div>\n</body></html>"

  /** `getBaseHTML(items)` with the canvas background it reads. */
  function Render(items: seq<Item>, bg: string): string
  {
    DocHead(bg) + Body(items) + DocTail
  }

  // ---------------------------------------------------------------------
  // Fragments

  /** Exactly the four blueprint kinds produce markup. */
  lemma FragmentEmptyIffUnknown(it: Item)
    ensures Fragment(it) == "" <==> !IsKnownKind(it.kind)
  {
    if IsKnownKind(it.kind) {
      assert |Close(it.kind, it.styles)| > 0;
    }
  }

  /** Every element's style attribute opens with the position taken from the
      item's own coordinates and the resolved animation, before any
      kind-specific declaration. */
  lemma FragmentStartsWithBase(it: Item)
    requires IsKnownKind(it.kind)
    ensures IsPrefix(OpenTag(it.kind, it.styles) + " style=\""
                     + ("position:absolute; top:" + CoordText(it.y) + "px; left:" + CoordText(it.x)
                        + "px; animation:" + ResolveAnimation(it.styles) + ";"),
                     Fragment(it))
  {
    PrefixSuffix3(OpenTag(it.kind, it.styles) + " style=\"" + BaseStyle(it),
                  KindRules(it.kind, it.styles), Close(it.kind, it.styles));
  }

  /** Text values reach the markup verbatim, with no escaping. */
  lemma ContentVerbatim(it: Item)
    ensures it.kind == "Button" ==> IsSuffix("\">" + StyleText(it.styles, "text") + "</button>", Fragment(it))
    ensures it.kind == "Badge" ==> IsSuffix("\">" + StyleText(it.styles, "text") + "</span>", Fragment(it))
    ensures it.kind == "Card" ==> Contains(Fragment(it), "<h3>" + StyleText(it.styles, "title") + "</h3>")
    ensures it.kind == "Card" ==> Contains(Fragment(it), "<p>" + StyleText(it.styles, "text") + "</p>")
    ensures it.kind == "Input" ==> Contains(Fragment(it), "placeholder=\"" + StyleText(it.styles, "placeholder") + "\"")
  {
    var s := it.styles;
    if IsKnownKind(it.kind) {
      var open := OpenTag(it.kind, s) + " style=\"" + BaseStyle(it);
      PrefixSuffix3(open, KindRules(it.kind, s), Close(it.kind, s));
      if it.kind == "Card" {
        var head := open + KindRules(it.kind, s);
        var h3, p := "<h3>" + StyleText(s, "title") + "</h3>", "<p>" + StyleText(s, "text") + "</p>";
        CardHeading(head, "\">\n          ", h3, "\n          " + p + "\n        </div>");
        CardParagraph(head, "\">\n          " + h3, "\n          ", p, "\n        </div>");
      } else if it.kind == "Input" {
        var ph := "placeholder=\"" + StyleText(s, "placeholder") + "\"";
        ContainsEnd("<input ", ph);
        ContainsExtend("<input " + ph, ph, " style=\"");
        ContainsExtend("<input " + ph + " style=\"", ph, BaseStyle(it));
        ContainsExtend(open, ph, KindRules(it.kind, s));
        ContainsExtend(open + KindRules(it.kind, s), ph, Close(it.kind, s));
      }
    }
  }

  lemma CardHeading(head: string, a: string, h3: string, rest: string)
    ensures Contains(head + (a + h3 + rest), h3)
  {
    var whole := head + (a + h3 + rest);
    assert whole[|head| + |a|..|head| + |a| + |h3|] == h3;
    OccursContains(whole, h3, |head| + |a|);
  }

  lemma CardParagraph(head: string, front: string, b: string, p: string, c: string)
    ensures Contains(head + (front + (b + p + c)), p)
  {
    var whole := head + (front + (b + p + c));
    var at := |head| + |front| + |b|;
    assert whole[at..at + |p|] == p;
    OccursContains(whole, p, at);
  }

  /** Two style maps that agree on the given keys. */
  predicate AgreeOn(s1: Styles, s2: Styles, keys: set<string>)
  {
    forall k :: k in keys ==> (k in s1 <==> k in s2) && (k in s1 ==> s1[k] == s2[k])
  }

  /** A fragment reads only the coordinates, the animation and the keys its
      kind's template names: any other style key has no effect on it. */
  lemma FragmentReadsTemplateKeys(a: Item, b: Item)
    requires a.kind == b.kind && a.x == b.x && a.y == b.y
    requires AgreeOn(a.styles, b.styles, TemplateKeys(a.kind) + {"animation"})
    ensures Fragment(a) == Fragment(b)
  {
    assert ResolveAnimation(a.styles) == ResolveAnimation(b.styles);
    assert BaseStyle(a) == BaseStyle(b);
    PiecesReadTemplateKeys(a.kind, a.styles, b.styles);
  }

  lemma PiecesReadTemplateKeys(kind: string, s1: Styles, s2: Styles)
    requires AgreeOn(s1, s2, TemplateKeys(kind))
    ensures OpenTag(kind, s1) == OpenTag(kind, s2)
    ensures KindRules(kind, s1) == KindRules(kind, s2)
    ensures Close(kind, s1) == Close(kind, s2)
  {
    var keys := TemplateKeys(kind);
    if IsKnownKind(kind) {
      SameText(s1, s2, keys, "background");
      SameText(s1, s2, keys, "color");
      SameText(s1, s2, keys, "borderRadius");
    }
    if kind == "Button" || kind == "Badge" {
      SameText(s1, s2, keys, "padding");
      SameText(s1, s2, keys, "fontSize");
      SameText(s1, s2, keys, "text");
    } else if kind == "Input" {
      SameText(s1, s2, keys, "placeholder");
      SameText(s1, s2, keys, "width");
      SameText(s1, s2, keys, "height");
      SameText(s1, s2, keys, "fontSize");
    } else if kind == "Card" {
      SameText(s1, s2, keys, "width");
      SameText(s1, s2, keys, "padding");
      SameText(s1, s2, keys, "title");
      SameText(s1, s2, keys, "text");
    }
  }

  lemma SameText(s1: Styles, s2: Styles, keys: set<string>, k: string)
    requires AgreeOn(s1, s2, keys) && k in keys
    ensures StyleText(s1, k) == StyleText(s2, k)
  {
  }

  // ---------------------------------------------------------------------
  // The document

  /** The fixed shell: the head (with the body rule and the whole keyframe
      catalog) comes first, the closing tags last, whatever the items. */
  lemma RenderShell(items: seq<Item>, bg: string)
    ensures IsPrefix(DocHead(bg), Render(items, bg))
    ensures IsSuffix(DocTail, Render(items, bg))
    ensures Contains(Render(items, bg), KeyframesCSS)
    ensures Contains(Render(items, bg), "background:" + bg + ";")
  {
    PrefixSuffix3(DocHead(bg), Body(items), DocTail);
    ShellPieces(Preamble, BodyRule(bg), CanvasRules, KeyframesCSS, StyleClose, Body(items), DocTail);
  }

  lemma ShellPieces(p: string, rule: string, c: string, k: string, sc: string, b: string, t: string)
    ensures Contains(p + rule + c + k + sc + b + t, k)
    ensures Contains(p + rule + c + k + sc + b + t, rule)
  {
    ContainsEnd(p + rule + c, k);
    ContainsExtend(p + rule + c + k, k, sc);
    ContainsExtend(p + rule + c + k + sc, k, b);
    ContainsExtend(p + rule + c + k + sc + b, k, t);
    ContainsEnd(p, rule);
    ContainsExtend(p + rule, rule, c);
    ContainsExtend(p + rule + c, rule, k);
    ContainsExtend(p + rule + c + k, rule, sc);
    ContainsExtend(p + rule + c + k + sc, rule, b);
    ContainsExtend(p + rule + c + k + sc + b, rule, t);
  }

  /** Each item's fragment appears verbatim in the document, after the head,
      at its offset within the body. */
  lemma FragmentPlacement(items: seq<Item>, bg: string, k: nat)
    requires k < |items|
    ensures OccursAt(Render(items, bg), Fragment(items[k]), |DocHead(bg)| + PartOffset(Fragments(items), k))
  {
    PartPlaced(DocHead(bg), Fragments(items), DocTail, k);
  }

  lemma FragmentInDocument(items: seq<Item>, bg: string, k: nat)
    requires k < |items|
    ensures Contains(Render(items, bg), Fragment(items[k]))
  {
    PartContained(DocHead(bg), Fragments(items), DocTail, k);
  }

  /** The document shows each placed component's own position. */
  lemma PositionInDocument(items: seq<Item>, bg: string, k: nat)
    requires k < |items| && IsKnownKind(items[k].kind)
    ensures Contains(Render(items, bg), "top:" + CoordText(items[k].y) + "px; left:" + CoordText(items[k].x) + "px;")
  {
    var it := items[k];
    var f := Fragment(it);
    var t := "top:" + CoordText(it.y) + "px; left:" + CoordText(it.x) + "px;";
    FragmentInDocument(items, bg, k);
    FragmentStartsWithBase(it);
    var open := OpenTag(it.kind, it.styles) + " style=\"";
    var base := open + ("position:absolute; top:" + CoordText(it.y) + "px; left:" + CoordText(it.x)
                        + "px; animation:" + ResolveAnimation(it.styles) + ";");
    PrefixContains(base, f);
    PositionMentioned(open, CoordText(it.y), CoordText(it.x), ResolveAnimation(it.styles));
    ContainsTransitive(f, base, t);
    ContainsTransitive(Render(items, bg), f, t);
  }

  lemma PositionMentioned(open: string, y: string, x: string, anim: string)
    ensures Contains(open + ("position:absolute; top:" + y + "px; left:" + x + "px; animation:" + anim + ";"),
                     "top:" + y + "px; left:" + x + "px;")
  {
    var t := "top:" + y + "px; left:" + x + "px;";
    var whole := open + ("position:absolute; top:" + y + "px; left:" + x + "px; animation:" + anim + ";");
    assert whole == open + "position:absolute; " + t + (" animation:" + anim + ";");
    ContainsMiddle(open + "position:absolute; ", t, " animation:" + anim + ";");
  }

  /** The document shows each Button's text verbatim as the element's content. */
  lemma ButtonTextInDocument(items: seq<Item>, bg: string, k: nat)
    requires k < |items| && items[k].kind == "Button"
    ensures Contains(Render(items, bg), "\">" + StyleText(items[k].styles, "text") + "</button>")
  {
    var t := "\">" + StyleText(items[k].styles, "text") + "</button>";
    FragmentInDocument(items, bg, k);
    ContentVerbatim(items[k]);
    SuffixContains(t, Fragment(items[k]));
    ContainsTransitive(Render(items, bg), Fragment(items[k]), t);
  }

  /** Z-order: fragments appear in item order, each ending before the next
      one starts. */
  lemma ZOrder(items: seq<Item>, bg: string, i: nat, j: nat)
    requires i < j < |items|
    ensures OccursAt(Render(items, bg), Fragment(items[i]), |DocHead(bg)| + PartOffset(Fragments(items), i))
    ensures OccursAt(Render(items, bg), Fragment(items[j]), |DocHead(bg)| + PartOffset(Fragments(items), j))
    ensures PartOffset(Fragments(items), i) + |Fragment(items[i])| < PartOffset(Fragments(items), j)
  {
    FragmentPlacement(items, bg, i);
    FragmentPlacement(items, bg, j);
    PartsInOrder(Fragments(items), i, j);
  }

  /** Appending an item appends its fragment after one line break. */
  lemma RenderAppend(items: seq<Item>, it: Item, bg: string)
    ensures |items| > 0 ==> Render(items + [it], bg) == DocHead(bg) + (Body(items) + "\n" + Fragment(it)) + DocTail
    ensures |items| == 0 ==> Render(items + [it], bg) == DocHead(bg) + Fragment(it) + DocTail
  {
    MapTextAppend(Fragment, items, it);
    if |items| > 0 {
      JoinAppend(Fragments(items), [Fragment(it)]);
    } else {
      assert items + [it] == [it];
    }
  }

  /** The document determines the background it was generated with. */
  lemma RenderDeterminesBackground(items: seq<Item>, bg1: string, bg2: string)
    requires Render(items, bg1) == Render(items, bg2)
    ensures bg1 == bg2
  {
    RuleDetermined(Preamble, bg1, bg2, CanvasRules, KeyframesCSS, StyleClose, Body(items), DocTail);
  }

  lemma RuleDetermined(p: string, m1: string, m2: string, c: string, k: string, sc: string, b: string, t: string)
    requires p + ("background:" + m1 + ";") + c + k + sc + b + t == p + ("background:" + m2 + ";") + c + k + sc + b + t
    ensures m1 == m2
  {
    var x, rest := p + "background:", ";" + c + k + sc + b + t;
    assert p + ("background:" + m1 + ";") + c + k + sc + b + t == x + m1 + rest;
    assert p + ("background:" + m2 + ";") + c + k + sc + b + t == x + m2 + rest;
    MiddleDetermined(x, m1, m2, rest);
  }

  /** Every animation an item uses has its keyframes in the document. */
  lemma UsedAnimationsDefined(items: seq<Item>, bg: string, k: nat)
    requires k < |items| && ResolveAnimation(items[k].styles) != "none"
    ensures Contains(Render(items, bg), "@keyframes " + FirstWord(ResolveAnimation(items[k].styles)) + " {")
  {
    var name := items[k].styles["animation"].s;
    PresetKeyframesDefined(name);
    RenderShell(items, bg);
    ContainsTransitive(Render(items, bg), KeyframesCSS, "@keyframes " + FirstWord(Animations[name]) + " {");
  }
}
