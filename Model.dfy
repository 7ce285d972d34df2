/** The values the visual builder keeps for each placed component, and how
    each of them is printed when it is interpolated into generated markup. */
module Model {
  import opened Text

  datatype Option<T> = None | Some(value: T)

  /** A style attribute value: the defaults hold strings and numbers; the
      properties panel writes back strings. */
  datatype Value = Str(s: string) | Num(n: int)

  /** A position as a JavaScript number: an integer offset, or NaN, which
      `Number(value)` yields for text that is not a number. */
  datatype Coord = At(n: int) | NaN

  type Styles = map<string, Value>

  /** A placed component: `{ id, type, x, y, styles }`. The kind is the raw
      drop payload, so it need not be one of the four blueprint names. */
  datatype Item = Item(id: int, kind: string, x: Coord, y: Coord, styles: Styles)

  /** `${v}` for a style value: strings verbatim, numbers in decimal. */
  function ValueText(v: Value): (r: string)
    ensures v.Str? ==> r == v.s
    ensures v.Num? ==> r == IntToString(v.n) && ParseInt(r) == v.n
  {
    match v
    case Str(s) => s
    case Num(n) => IntRoundTrip(n); IntToString(n)
  }

  /** `${s[key]}`: a key the item does not have prints as "undefined". */
  function StyleText(styles: Styles, key: string): (r: string)
    ensures key !in styles ==> r == "undefined"
    ensures key in styles ==> r == ValueText(styles[key])
  {
    if key in styles then ValueText(styles[key]) else "undefined"
  }

  /** `${item.x}` / `${item.y}`. */
  function CoordText(c: Coord): (r: string)
    ensures c.NaN? <==> r == "NaN"
    ensures c.At? ==> r == IntToString(c.n) && ParseInt(r) == c.n
  {
    match c
    case At(n) => IntRoundTrip(n); IntToString(n)
    case NaN => "NaN"
  }
}
