/** The form elements and field values that the object-form plugin moves
    between a page and a plain key-value object. */
module Form {

  datatype Option<T> = None | Some(value: T)

  /** A field value as it sits in the object: a string for ordinary inputs,
      a boolean for checkboxes. */
  datatype Val = Text(s: string) | Flag(b: bool)

  /** One `:input` element of the page. The empty name stands for an element
      whose name attribute is absent or empty. */
  datatype Input = Input(name: string, isCheckbox: bool, value: string, checked: bool)

  /** JavaScript truthiness of a value: `false` and `""` are falsy. */
  predicate Truthy(v: Val): (t: bool)
    ensures !t <==> v == Flag(false) || v == Text("")
  {
    match v
    case Text(s) => s != ""
    case Flag(b) => b
  }

  /** The string that `.val(v)` stores: a string as it is, a boolean as
      JavaScript's `String(b)` spells it. */
  function ValText(v: Val): (t: string)
    ensures v.Text? ==> t == v.s
    ensures v.Flag? ==> t == (if v.b then "true" else "false")
  {
    match v
    case Text(s) => s
    case Flag(b) => if b then "true" else "false"
  }

  /** The value that extraction reads from one element: the checked state
      of a checkbox, the current string value of anything else. */
  function InputValue(e: Input): (v: Val)
    ensures v.Flag? <==> e.isCheckbox
    ensures v.Flag? ==> v.b == e.checked
    ensures v.Text? ==> v.s == e.value
  {
    if e.isCheckbox then Flag(e.checked) else Text(e.value)
  }

  /** The set of names under which extraction can store a value. */
  function NamedKeys(fs: seq<Input>): set<string> {
    set i | 0 <= i < |fs| && fs[i].name != "" :: fs[i].name
  }
}
