/** The builder's editor state: the placed components, the selected copy,
    the canvas background and the generated document, and the handlers that
    change them by appending, mapping by id or filtering by id. */
module Editor {
  import opened Text
  import opened Model
  import opened Presets
  import opened Generator

  datatype Axis = X | Y

  /** One write to a component: a style key, one coordinate, or both
      coordinates at once (a drag). */
  datatype Edit = SetStyle(key: string, value: Value) | SetAxis(axis: Axis, pos: Coord) | MoveTo(x: Coord, y: Coord)

  /** `{ ...it, styles: { ...it.styles, [key]: value } }`, `{ ...it, [key]: n }`
      and `{ ...it, x, y }`: the write touches the named field or key and
      nothing else. */
  function Apply(e: Edit, it: Item): (r: Item)
    ensures r.id == it.id && r.kind == it.kind
    ensures e.SetStyle? ==>
              r.x == it.x && r.y == it.y
              && r.styles.Keys == it.styles.Keys + {e.key} && r.styles[e.key] == e.value
              && forall k :: k in it.styles && k != e.key ==> r.styles[k] == it.styles[k]
    ensures e.SetStyle? && e.key in it.styles ==> r.styles.Keys == it.styles.Keys
    ensures e.SetAxis? ==>
              r.styles == it.styles
              && (e.axis == X ==> r.x == e.pos && r.y == it.y)
              && (e.axis == Y ==> r.y == e.pos && r.x == it.x)
    ensures e.MoveTo? ==> r.styles == it.styles && r.x == e.x && r.y == e.y
  {
    match e
    case SetStyle(key, value) => it.(styles := it.styles[key := value])
    case SetAxis(axis, pos) => if axis == X then it.(x := pos) else it.(y := pos)
    case MoveTo(x, y) => it.(x := x, y := y)
  }

  /** `items.map(it => it.id === id ? <write> : it)`: every item with the
      id receives the write, every other item stays as it was, in place. */
  function UpdateWhere(items: seq<Item>, id: int, e: Edit): (r: seq<Item>)
    ensures |r| == |items|
    ensures forall k :: 0 <= k < |items| ==> r[k] == if items[k].id == id then Apply(e, items[k]) else items[k]
    decreases |items|
  {
    if items == [] then []
    else [if items[0].id == id then Apply(e, items[0]) else items[0]] + UpdateWhere(items[1..], id, e)
  }

  /** `items.filter(i => i.id !== id)`. */
  function RemoveById(items: seq<Item>, id: int): (r: seq<Item>)
    ensures |r| <= |items|
    ensures forall x :: x in r <==> x in items && x.id != id
    decreases |items|
  {
    if items == [] then []
    else (if items[0].id == id then [] else [items[0]]) + RemoveById(items[1..], id)
  }

  /** Filtering distributes over concatenation, so the survivors keep their
      relative order. */
  lemma {:induction false} RemoveDistributes(a: seq<Item>, b: seq<Item>, id: int)
    ensures RemoveById(a + b, id) == RemoveById(a, id) + RemoveById(b, id)
    decreases |a|
  {
    if a == [] {
      assert a + b == b;
    } else {
      assert (a + b)[0] == a[0];
      assert (a + b)[1..] == a[1..] + b;
      RemoveDistributes(a[1..], b, id);
    }
  }

  /** Filtering out an id nobody has changes nothing. */
  lemma {:induction false} RemoveAbsent(items: seq<Item>, id: int)
    requires forall x :: x in items ==> x.id != id
    ensures RemoveById(items, id) == items
    decreases |items|
  {
    if items != [] {
      assert items[0] in items;
      assert forall x :: x in items[1..] ==> x in items;
      RemoveAbsent(items[1..], id);
      assert [items[0]] + items[1..] == items;
    }
  }

  /** Deleting a component right after dropping it, under an id no earlier
      component has, restores the earlier sequence. */
  lemma DropThenDeleteRestores(items: seq<Item>, it: Item)
    requires forall x :: x in items ==> x.id != it.id
    ensures RemoveById(items + [it], it.id) == items
  {
    RemoveDistributes(items, [it], it.id);
    RemoveAbsent(items, it.id);
    assert RemoveById([it], it.id) == [];
  }

  /** A copy taken from the store, given the same write, is again an
      element of the updated store. */
  lemma SelectionFollows(items: seq<Item>, sel: Item, e: Edit)
    requires sel in items
    ensures Apply(e, sel) in UpdateWhere(items, sel.id, e)
  {
    var k :| 0 <= k < |items| && items[k] == sel;
    assert UpdateWhere(items, sel.id, e)[k] == Apply(e, sel);
  }

  /** The style keys some template interpolates. */
  const ReadKeys: set<string> :=
    TemplateKeys("Button") + TemplateKeys("Input") + TemplateKeys("Card") + TemplateKeys("Badge") + {"animation"}

  /** With no key guard a write may add any key; one that no template reads
      leaves the generated document exactly as it was. */
  lemma StrayStyleInvisible(items: seq<Item>, id: int, key: string, v: Value, bg: string)
    requires key !in ReadKeys
    ensures Render(UpdateWhere(items, id, SetStyle(key, v)), bg) == Render(items, bg)
  {
    var e := SetStyle(key, v);
    var after := UpdateWhere(items, id, e);
    forall k | 0 <= k < |items| ensures Fragment(after[k]) == Fragment(items[k]) {
      if items[k].id == id {
        var kind := items[k].kind;
        assert TemplateKeys(kind) + {"animation"} <= ReadKeys;
        assert AgreeOn(after[k].styles, items[k].styles, TemplateKeys(kind) + {"animation"});
        FragmentReadsTemplateKeys(after[k], items[k]);
      }
    }
    assert Fragments(after) == Fragments(items);
  }

  /** Dropping a Button at (10, 20): the regenerated document places it at
      top 20, left 10 and shows its default text. */
  lemma DroppedButtonPosition(items: seq<Item>, b: Item, bg: string)
    requires b.kind == "Button" && b.x == At(10) && b.y == At(20)
    ensures Contains(Render(items + [b], bg), "top:20px; left:10px;")
  {
    var after := items + [b];
    assert after[|items|] == b;
    PositionInDocument(after, bg, |items|);
    CoordLiterals();
    PositionLiteral();
  }

  lemma DroppedButtonText(items: seq<Item>, b: Item, bg: string)
    requires b.kind == "Button" && b.styles == DefaultStyles(b.kind)
    ensures Contains(Render(items + [b], bg), "\">🚀 Click Me</button>")
  {
    var after := items + [b];
    assert after[|items|] == b;
    ButtonTextInDocument(after, bg, |items|);
    ButtonDefaultText();
    TextLiteral();
  }

  // The four lemmas below each state facts about string literals only. They
  // exist for the solver: each literal is met in a small proof of its own
  // instead of inside the document-level scenarios above.

  lemma CoordLiterals()
    ensures CoordText(At(20)) == "20" && CoordText(At(10)) == "10"
  {
    assert NatToString(20) == NatToString(2) + [DigitChar(0)];
    assert NatToString(10) == NatToString(1) + [DigitChar(0)];
  }

  lemma PositionLiteral()
    ensures "top:" + "20" + "px; left:" + "10" + "px;" == "top:20px; left:10px;"
  {
  }

  lemma ButtonDefaultText()
    ensures StyleText(DefaultStyles("Button"), "text") == "🚀 Click Me"
  {
    assert "text" in DefaultStyles("Button");
  }

  lemma TextLiteral()
    ensures "\">" + "🚀 Click Me" + "</button>" == "\">🚀 Click Me</button>"
  {
  }

  /** Re-texting a Button through the style editor: the regenerated
      document shows the new text as the element's content. */
  lemma RetextedButtonShows(items: seq<Item>, id: int, k: nat, v: string, bg: string)
    requires k < |items| && items[k].id == id && items[k].kind == "Button"
    ensures Contains(Render(UpdateWhere(items, id, SetStyle("text", Str(v))), bg), "\">" + v + "</button>")
  {
    var after := UpdateWhere(items, id, SetStyle("text", Str(v)));
    assert after[k] == Apply(SetStyle("text", Str(v)), items[k]);
    ButtonTextInDocument(after, bg, k);
  }

  /** Re-texting a default Button with text free of the rocket glyph leaves
      no trace of the default text "🚀 Click Me" in its markup. */
  lemma RetextedButtonDropsDefault(b: Item, v: string)
    requires b.kind == "Button" && b.styles == DefaultStyles("Button") && '🚀' !in v
    ensures '🚀' !in Fragment(Apply(SetStyle("text", Str(v)), b))
    ensures !Contains(Fragment(Apply(SetStyle("text", Str(v)), b)), "🚀 Click Me")
  {
    var a := Apply(SetStyle("text", Str(v)), b);
    assert a.styles == DefaultStyles("Button")["text" := Str(v)];
    RetextedFragmentWithoutGlyph(a, v);
    AbsentLeadNotContained(Fragment(a), "🚀 Click Me");
  }

  lemma RetextedFragmentWithoutGlyph(a: Item, v: string)
    requires a.kind == "Button" && a.styles == DefaultStyles("Button")["text" := Str(v)] && '🚀' !in v
    ensures '🚀' !in Fragment(a)
  {
    var st := a.styles;
    CoordWithoutGlyph(a.x);
    CoordWithoutGlyph(a.y);
    RetextedStylesWithoutGlyph(v);
    BaseWithoutGlyph(CoordText(a.y), CoordText(a.x), ResolveAnimation(st));
    ButtonWithoutGlyph(StyleText(st, "background"), StyleText(st, "color"), StyleText(st, "borderRadius"),
                       StyleText(st, "padding"), StyleText(st, "fontSize"), v);
  }

  // Helpers for RetextedButtonDropsDefault: each shows the glyph missing from
  // one piece of a re-texted Button's markup. The literal-only ones (the
  // gradient, the short declaration literals, the border and the cursor
  // literal) exist for the solver, which does not settle a glyph test on a
  // literal of about forty characters or more in one step; the border literal
  // is therefore split in two.

  lemma CoordWithoutGlyph(c: Coord)
    ensures '🚀' !in CoordText(c)
  {
    if c.At? {
      var t := IntToString(c.n);
      assert forall i :: 0 <= i < |t| ==> t[i] != '🚀';
    }
  }

  lemma RetextedStylesWithoutGlyph(v: string)
    requires '🚀' !in v
    ensures var st := DefaultStyles("Button")["text" := Str(v)];
      '🚀' !in StyleText(st, "background") && '🚀' !in StyleText(st, "color")
      && '🚀' !in StyleText(st, "borderRadius") && '🚀' !in StyleText(st, "padding")
      && '🚀' !in StyleText(st, "fontSize") && StyleText(st, "text") == v
      && ResolveAnimation(st) == "none"
  {
    RetextedButtonStyles(v);
    NumberWithoutGlyph(12);
    NumberWithoutGlyph(16);
    GradientWithoutGlyph();
    assert '🚀' !in "white";
    assert '🚀' !in "14px 28px";
  }

  lemma RetextedButtonStyles(v: string)
    ensures var st := DefaultStyles("Button")["text" := Str(v)];
      StyleText(st, "background") == "linear-gradient(135deg,#667eea,#764ba2)"
      && StyleText(st, "color") == "white" && StyleText(st, "padding") == "14px 28px"
      && StyleText(st, "borderRadius") == ValueText(Num(12)) && StyleText(st, "fontSize") == ValueText(Num(16))
      && StyleText(st, "text") == v && ResolveAnimation(st) == "none"
  {
    var d := DefaultStyles("Button");
    var st := d["text" := Str(v)];
    ButtonDefaultValues();
    assert st["background"] == d["background"] && st["color"] == d["color"] && st["padding"] == d["padding"];
    assert st["borderRadius"] == d["borderRadius"] && st["fontSize"] == d["fontSize"];
    assert st["animation"] == d["animation"];
  }

  lemma ButtonDefaultValues()
    ensures var d := DefaultStyles("Button");
      "background" in d && d["background"] == Str("linear-gradient(135deg,#667eea,#764ba2)")
      && "color" in d && d["color"] == Str("white") && "padding" in d && d["padding"] == Str("14px 28px")
      && "borderRadius" in d && d["borderRadius"] == Num(12) && "fontSize" in d && d["fontSize"] == Num(16)
      && "animation" in d && d["animation"] == Str("none")
  {
  }

  lemma GradientWithoutGlyph()
    ensures '🚀' !in "linear-gradient(135deg,#667eea,#764ba2)"
  {
    assert "linear-gradient(135deg,#667eea,#764ba2)" == "linear-gradient(" + "135deg,#667eea,#764ba2)";
  }

  lemma NumberWithoutGlyph(n: int)
    ensures '🚀' !in ValueText(Num(n))
  {
    CoordWithoutGlyph(At(n));
  }

  lemma BaseWithoutGlyph(y: string, x: string, anim: string)
    requires '🚀' !in y && '🚀' !in x && anim == "none"
    ensures '🚀' !in "position:absolute; top:" + y + "px; left:" + x + "px; animation:" + anim + ";"
  {
  }

  lemma ButtonWithoutGlyph(bg: string, color: string, radius: string, padding: string, size: string, text: string)
    requires '🚀' !in bg && '🚀' !in color && '🚀' !in radius && '🚀' !in padding && '🚀' !in size
    requires '🚀' !in text
    ensures '🚀' !in ButtonRules(bg, color, radius, padding, size)
    ensures '🚀' !in "\">" + text + "</button>"
  {
    ShortButtonLiteralsWithoutGlyph();
    BorderLiteralWithoutGlyph();
    CursorLiteralWithoutGlyph();
  }

  lemma ShortButtonLiteralsWithoutGlyph()
    ensures '🚀' !in "\n          background:" && '🚀' !in ";\n          color:"
    ensures '🚀' !in "px;\n          padding:" && '🚀' !in ";\n          font-size:"
  {
  }

  lemma BorderLiteralWithoutGlyph()
    ensures '🚀' !in ";\n          border:none;\n          border-radius:"
  {
    assert ";\n          border:none;\n          border-radius:" == ";\n          border:none;" + "\n          border-radius:";
  }

  lemma CursorLiteralWithoutGlyph()
    ensures '🚀' !in "px;\n          cursor:pointer;\n        "
  {
  }

  /** The editor: `droppedItems`, `selectedItem`, `canvasBg` and
      `generatedCode`. The selection is a copy of a component, not a
      reference to it. */
  class EditorState {
    var items: seq<Item>
    var selected: Option<Item>
    var canvasBg: string
    var generatedCode: string

    /** The selected copy is one of the stored components. */
    ghost predicate Valid()
      reads this
    {
      selected.Some? ==> selected.value in items
    }

    constructor ()
      ensures Valid()
      ensures items == [] && selected == None && canvasBg == "#f8f8f8" && generatedCode == ""
    {
      items := [];
      selected := None;
      canvasBg := "#f8f8f8";
      generatedCode := "";
    }

    /** `handleDrop`: a fresh component with the kind's defaults at the
        drop point, appended last; the code is regenerated. */
    method HandleDrop(id: int, kind: string, x: int, y: int)
      requires Valid()
      modifies this
      ensures Valid()
      ensures items == old(items) + [Item(id, kind, At(x), At(y), DefaultStyles(kind))]
      ensures selected == old(selected) && canvasBg == old(canvasBg)
      ensures generatedCode == Render(items, canvasBg)
    {
      var updated := items + [Item(id, kind, At(x), At(y), DefaultStyles(kind))];
      items := updated;
      generatedCode := Render(updated, canvasBg);
    }

    /** `handleItemDrag`: every component with the dragged id moves to the
        drop point, and the moved copy becomes the selection. */
    method HandleItemDrag(item: Item, x: int, y: int)
      requires Valid() && item in items
      modifies this
      ensures Valid()
      ensures items == UpdateWhere(old(items), item.id, MoveTo(At(x), At(y)))
      ensures selected == Some(Apply(MoveTo(At(x), At(y)), item))
      ensures canvasBg == old(canvasBg)
      ensures generatedCode == Render(items, canvasBg)
    {
      var e := MoveTo(At(x), At(y));
      SelectionFollows(items, item, e);
      var updated := UpdateWhere(items, item.id, e);
      items := updated;
      selected := Some(Apply(e, item));
      generatedCode := Render(updated, canvasBg);
    }

    /** `selectItem`: a component of the store becomes the selection. */
    method SelectItem(item: Item)
      requires Valid() && item in items
      modifies this
      ensures Valid()
      ensures selected == Some(item)
      ensures items == old(items) && canvasBg == old(canvasBg) && generatedCode == old(generatedCode)
    {
      selected := Some(item);
    }

    /** The write both `updateStyle` and `updatePosition` make: to every
        component with the selected id and to the selected copy alike. */
    method ApplyToSelection(e: Edit)
      requires Valid()
      modifies this
      ensures Valid()
      ensures old(selected).None? ==>
                items == old(items) && selected == old(selected) && generatedCode == old(generatedCode)
      ensures old(selected).Some? ==>
                items == UpdateWhere(old(items), old(selected).value.id, e)
                && selected == Some(Apply(e, old(selected).value))
                && generatedCode == Render(items, canvasBg)
      ensures canvasBg == old(canvasBg)
    {
      if selected.Some? {
        var sel := selected.value;
        SelectionFollows(items, sel, e);
        var updated := UpdateWhere(items, sel.id, e);
        items := updated;
        selected := Some(Apply(e, sel));
        generatedCode := Render(updated, canvasBg);
      }
    }

    /** `updateStyle(key, value)`: the text field's value is stored under
        any key, present or not. */
    method UpdateStyle(key: string, value: string)
      requires Valid()
      modifies this
      ensures Valid()
      ensures old(selected).None? ==>
                items == old(items) && selected == old(selected) && generatedCode == old(generatedCode)
      ensures old(selected).Some? ==>
                items == UpdateWhere(old(items), old(selected).value.id, SetStyle(key, Str(value)))
                && selected == Some(Apply(SetStyle(key, Str(value)), old(selected).value))
                && generatedCode == Render(items, canvasBg)
      ensures canvasBg == old(canvasBg)
    {
      ApplyToSelection(SetStyle(key, Str(value)));
    }

    /** `updatePosition(key, value)`: `Number(value)` is stored whatever it
        is, NaN included; the caller passes the coerced number. */
    method UpdatePosition(axis: Axis, value: Coord)
      requires Valid()
      modifies this
      ensures Valid()
      ensures old(selected).None? ==>
                items == old(items) && selected == old(selected) && generatedCode == old(generatedCode)
      ensures old(selected).Some? ==>
                items == UpdateWhere(old(items), old(selected).value.id, SetAxis(axis, value))
                && selected == Some(Apply(SetAxis(axis, value), old(selected).value))
                && generatedCode == Render(items, canvasBg)
      ensures canvasBg == old(canvasBg)
    {
      ApplyToSelection(SetAxis(axis, value));
    }

    /** `deleteItem`: every component with the selected id is removed, the
        rest keep their order, and the selection is cleared. */
    method DeleteItem()
      requires Valid()
      modifies this
      ensures Valid()
      ensures old(selected).None? ==>
                items == old(items) && selected == old(selected) && generatedCode == old(generatedCode)
      ensures old(selected).Some? ==>
                items == RemoveById(old(items), old(selected).value.id)
                && selected == None
                && generatedCode == Render(items, canvasBg)
      ensures canvasBg == old(canvasBg)
    {
      if selected.Some? {
        var updated := RemoveById(items, selected.value.id);
        items := updated;
        selected := None;
        generatedCode := Render(updated, canvasBg);
      }
    }

    /** `setCanvasBg`: only the background changes; the generated code is
        not regenerated, so once it was current it no longer is. */
    method SetCanvasBackground(bg: string)
      requires Valid()
      modifies this
      ensures Valid()
      ensures canvasBg == bg
      ensures items == old(items) && selected == old(selected) && generatedCode == old(generatedCode)
      ensures old(generatedCode) == Render(old(items), old(canvasBg)) && bg != old(canvasBg)
              ==> generatedCode != Render(items, canvasBg)
    {
      if generatedCode == Render(items, bg) && generatedCode == Render(items, canvasBg) {
        RenderDeterminesBackground(items, bg, canvasBg);
      }
      canvasBg := bg;
    }
  }
}
