# Visual UI builder: editor state and HTML generator

A user drags component blueprints (Button, Input, Card, Badge) onto a canvas.
They then move and restyle the placed components. The builder keeps a
standalone HTML document in step with the canvas. This project models that
core of `frontend/src/App.js` in Dafny and proves what it guarantees.

- `Text.dfy` holds the text machinery the generator relies on:
  - decimal rendering of integers, `${n}`, with a parser as its inverse;
  - `map` and `join("\n")`;
  - substring containment and position.
- `Model.dfy` holds the values:
  - a placed component `Item(id, kind, x, y, styles)`;
  - style values, which are strings or numbers;
  - coordinates, which are an integer or NaN;
  - how each value prints when interpolated, including `undefined` for a missing key.
- `Presets.dfy` holds the constant tables:
  - the per-kind default styles;
  - the animation presets and their `|| "none"` fallback;
  - the fixed `@keyframes` text.
- `Generator.dfy` holds `getBaseHTML` as the pure function `Render(items, bg)`.
  - It builds a fixed head, which includes the body rule with the canvas background and the whole keyframe text.
  - Then it emits one fragment per item, joined by line breaks.
  - Then it emits a fixed tail.
  - Unknown kinds give empty fragments. Every value is interpolated raw.
- `Editor.dfy` holds the editor state as the class `EditorState`.
  - Its fields are `items`, `selected`, `canvasBg` and `generatedCode`.
  - The drop, drag, style, position and delete handlers are methods that append, map by id or filter by id, then regenerate the code.
  - Selecting a component only sets the selection, and setting the background only sets the background; neither regenerates the code.
  - The map and the filter are the functions `UpdateWhere` and `RemoveById`.
  - Each method's contract gives the whole new state. All of them keep the invariant `Valid()`: the selected copy is one of the stored components.

## Model

| member | source | states |
|---|---|---|
| Text.NatToString | frontend/src/App.js:99 | a natural number prints as a non-empty string of decimal digits with no leading zero |
| Text.IntToString | frontend/src/App.js:99 | an integer prints as canonical decimal text: digits with no leading zero, preceded by `-` exactly when the integer is negative |
| Text.NatRoundTrip | frontend/src/App.js:99 | reading the digits of a natural number back gives the same number |
| Text.CanonicalIsPrinted | frontend/src/App.js:99 | every canonical decimal text is the printing of the number it reads as, so printing produces exactly the canonical texts |
| Text.IntRoundTrip | frontend/src/App.js:99 | reading a printed integer back gives the same integer, so printing loses nothing |
| Text.IntToStringInjective | frontend/src/App.js:99 | two different positions never print as the same text |
| Text.JoinAppend | frontend/src/App.js:147 | joining two non-empty lists puts exactly one `"\n"` between the two joined texts |
| Text.PartAtOffset | frontend/src/App.js:95-147 | part k appears verbatim in the joined text, at its computed offset |
| Text.PartsInOrder | frontend/src/App.js:95-147 | in the joined text, part i ends strictly before part j starts whenever i < j |
| Model.ValueText | frontend/src/App.js:104-111 | A text style value prints unchanged, and a number prints as its canonical decimal text, which reads back as the same number. |
| Model.CoordText | frontend/src/App.js:99 | a coordinate prints as `NaN` exactly when it is NaN; otherwise as the integer's canonical decimal text, which reads back as the number |
| Presets.DefaultStyles | frontend/src/App.js:24-63 | each of the four kinds starts with animation `none`; any other drop payload gets no style keys at all |
| Presets.DefaultsMatchTemplate | frontend/src/App.js:24-63 | a fresh component of a known kind has exactly the keys its template reads, plus `animation` |
| Presets.DefaultValuesDefined | frontend/src/App.js:24-63 | no default value of any kind prints as `undefined` |
| Presets.DefaultsNeverUndefined | frontend/src/App.js:97-142 | a freshly dropped component of a known kind prints no `undefined` for any key its template reads |
| Presets.ResolveAnimation | frontend/src/App.js:98 | the result is always one of the preset shorthands: the named preset's shorthand when the value is a preset name, and `none` for anything else (missing, numeric, unknown) |
| Presets.ResolveBounceExample | frontend/src/App.js:68 | animation `bounce` resolves to `bounce 2s infinite` |
| Presets.ResolveRotateExample | frontend/src/App.js:70 | animation `rotate` resolves to `spin 3s linear infinite` |
| Presets.ResolveFallbackExamples | frontend/src/App.js:98 | a numeric animation value, or none at all, resolves to `none` |
| Presets.CatalogContains | frontend/src/App.js:4-14 | whatever one keyframe rule contains, the keyframe text contains |
| Presets.PresetKeyframesDefined | frontend/src/App.js:4-14 | every preset other than `none` names, as its first word, a `@keyframes` rule that the keyframe text defines |
| Generator.FragmentEmptyIffUnknown | frontend/src/App.js:101-145 | a fragment is empty exactly when the kind is not one of the four blueprints |
| Generator.FragmentStartsWithBase | frontend/src/App.js:99-135 | every element's style attribute opens with `position:absolute; top:<y>px; left:<x>px; animation:<resolved>;`, using the component's own coordinates |
| Generator.ContentVerbatim | frontend/src/App.js:111-142 | text reaches the markup unescaped: a Button ends `">text</button>`, a Badge ends `">text</span>`, a Card contains `<h3>title</h3>` and `<p>text</p>`, and an Input contains `placeholder="…"` |
| Generator.FragmentReadsTemplateKeys | frontend/src/App.js:96-145 | a fragment depends only on the kind, the coordinates, the animation and the keys its template names |
| Generator.PiecesReadTemplateKeys | frontend/src/App.js:101-142 | the opening tag, the declaration lines and the closing part each depend only on the template's keys |
| Generator.RenderShell | frontend/src/App.js:83-149 | every document starts with the fixed head and ends with the fixed tail, and it contains the whole keyframe text and `background:<canvasBg>;`, whatever the items |
| Generator.FragmentPlacement | frontend/src/App.js:95-147 | each item's fragment appears verbatim after the head, at its offset within the joined body |
| Generator.FragmentInDocument | frontend/src/App.js:95-147 | the document contains every item's fragment |
| Generator.ZOrder | frontend/src/App.js:95-147 | fragments appear in item order, and each one ends before the next one starts |
| Generator.PositionInDocument | frontend/src/App.js:99 | the document shows `top:<y>px; left:<x>px;` for every component of a known kind |
| Generator.ButtonTextInDocument | frontend/src/App.js:111 | the document shows every Button's text verbatim as the element's content |
| Generator.RenderAppend | frontend/src/App.js:147 | appending an item appends its fragment to the body, after one line break unless there were no items before |
| Generator.RenderDeterminesBackground | frontend/src/App.js:89 | documents rendered from the same items with different backgrounds differ |
| Generator.UsedAnimationsDefined | frontend/src/App.js:91-99 | every animation a component uses has its `@keyframes` rule in the same document |
| Editor.Apply | frontend/src/App.js:183-216 | a style write adds or overwrites that one key and keeps the key set when the key was present; a position write sets one coordinate; a drag sets both; id, kind and everything else stay |
| Editor.UpdateWhere | frontend/src/App.js:183-185 | map by id: the same length, every item with the id gets the write, and every other item is unchanged in place |
| Editor.RemoveById | frontend/src/App.js:223 | filter by id: exactly the items without that id survive, and none is added |
| Editor.RemoveDistributes | frontend/src/App.js:223 | filtering distributes over concatenation, so the survivors keep their relative order |
| Editor.RemoveAbsent | frontend/src/App.js:223 | filtering out an id no item has changes nothing |
| Editor.DropThenDeleteRestores | frontend/src/App.js:156-227 | dropping a component under an unused id and then deleting it restores the earlier items |
| Editor.SelectionFollows | frontend/src/App.js:196-209 | the selected copy, given the same write as the store, is again an element of the store |
| Editor.StrayStyleInvisible | frontend/src/App.js:196-209 | writing a key that no template reads leaves the generated document unchanged |
| Editor.DroppedButtonPosition | frontend/src/App.js:156-173 | after a Button is dropped at (10, 20), the document contains `top:20px; left:10px;` |
| Editor.DroppedButtonText | frontend/src/App.js:156-173 | after a Button is dropped with its defaults, the document contains `">🚀 Click Me</button>` |
| Editor.RetextedButtonShows | frontend/src/App.js:196-209 | after a Button's text is set to v, the regenerated document contains `">v</button>` |
| Editor.RetextedButtonDropsDefault | frontend/src/App.js:196-209 | once a default Button's text is set to a text without the rocket glyph, its markup no longer contains the glyph, so the default `🚀 Click Me` is gone |
| Editor.EditorState.constructor | frontend/src/App.js:17-21 | the editor starts with no items, no selection, background `#f8f8f8` and empty code |
| Editor.EditorState.HandleDrop | frontend/src/App.js:156-173 | exactly one component is appended last, with the dropped kind, the drop point and the kind's defaults; earlier items, the selection and the background stay; the code is the new render |
| Editor.EditorState.HandleItemDrag | frontend/src/App.js:180-190 | every component with the dragged id moves to the drop point; the moved copy becomes the selection; the code is re-rendered |
| Editor.EditorState.SelectItem | frontend/src/App.js:192-194 | a stored component becomes the selection, and nothing else changes |
| Editor.EditorState.ApplyToSelection | frontend/src/App.js:196-219 | with no selection nothing changes; otherwise the store and the selected copy get the same write, and the code is re-rendered |
| Editor.EditorState.UpdateStyle | frontend/src/App.js:196-209 | with no selection nothing changes; otherwise the value is stored under any key, in the store and in the selected copy alike, and the code is re-rendered |
| Editor.EditorState.UpdatePosition | frontend/src/App.js:211-219 | with no selection nothing changes; otherwise one coordinate is set to the coerced number, NaN included, in the store and in the copy, and the code is re-rendered |
| Editor.EditorState.DeleteItem | frontend/src/App.js:221-227 | with no selection nothing changes; otherwise every item with the selected id goes, the rest keep their order, the selection is cleared, and the code is re-rendered |
| Editor.EditorState.SetCanvasBackground | frontend/src/App.js:462 | only the background changes; code that was current before becomes stale when the background differs |

## Where the handlers accept more than the panel offers

The model follows the code in each of these cases.

- The style panel shows a field only for a key the component already has (frontend/src/App.js:410-420), and the animation selector writes `animation` (frontend/src/App.js:425-427). `updateStyle` itself does not check the key (frontend/src/App.js:200).
  - `UpdateStyle` therefore adds any key.
  - `StrayStyleInvisible` shows that a key no template reads has no effect on the document.
- The position fields are number inputs (frontend/src/App.js:393, 402). `updatePosition` still stores `Number(value)` whatever the text is (frontend/src/App.js:214, 217), so `Coord` has a NaN case, which prints as `NaN`.
- Every item handler regenerates the document, but `setCanvasBg` (frontend/src/App.js:462) only sets the background.
  - `SetCanvasBackground` leaves `generatedCode` unchanged.
  - Its contract, through `RenderDeterminesBackground`, states that previously current code is then stale.
- The selection is a copy of a component, not an id looked up in the store (frontend/src/App.js:188, 204-207, 217).
  - The model keeps the copy.
  - `Valid()` and `SelectionFollows` show that the handlers keep it equal to a stored component.
- Ids come from `Date.now()` (frontend/src/App.js:164), so two drops within one millisecond share an id.
  - The map and the filter act on every item with the id.
  - `DropThenDeleteRestores` assumes the new id is unused.

## Left out

- The JSX tree, the welcome timer, and the injection of the keyframe text into the live page: these are presentation. The clipboard copy is asynchronous I/O.
- `dataTransfer`, `getBoundingClientRect` and pointer events: `HandleDrop` and `HandleItemDrag` receive the kind and canvas-relative integer coordinates directly.
- `Date.now()`: the caller passes the fresh id to `HandleDrop`.
- Model.ValueText: numbers are integers printed as plain digits. JavaScript prints a fractional number with a decimal point, a magnitude of 10^21 or more in exponent form (`1e+21`), and an infinite one as `Infinity`; none of these is modelled.
- Model.CoordText: prints plain digits for every integer, which matches JavaScript only for |n| < 10^21 (from 10^21 on it prints `1e+21` and the like). `Coord` cannot hold `Infinity`, which `Number("1e400")` gives and which prints as `Infinity`.
- Text.IntToString: matches JavaScript's `${n}` only for |n| < 10^21; larger magnitudes print in exponent form there.
- Fractional coordinates: pointer offsets can be fractional, but `Coord` is an integer or NaN, and `CoordText` prints integers only.
- Editor.EditorState.UpdatePosition: does not model JavaScript's `Number(...)` text parsing (decimals, exponents, whitespace, empty text giving 0). The caller passes the already-coerced `Coord`.
- Editor.EditorState.UpdateStyle: the value is always text, as the text fields supply it. The model does not produce numeric values after a write.
- Presets.ResolveAnimation: does not model names inherited from `Object.prototype` (such as `constructor`), which the lookup would find in the table object.
- Editor.EditorState.HandleItemDrag and Editor.EditorState.SelectItem: require the component to be an element of the store, which holds because the handlers are bound to the rendered list.
- The other files of the repository are not part of this model:
  - the backend (`index.js`, `hackathon.1/index.js`), which forwards a prompt to a hosted language model;
  - `GenerateCode.js`, an HTTP call;
  - the root `App.js`, a demo button.
