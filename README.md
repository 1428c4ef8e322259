# objectform in Dafny

A model of the jQuery plugin `jquery.objectform.js`, a form serialiser and
deserialiser with two operations:

- `extractObject(destination, filter)` walks the `:input` elements of a scope
  in document order. It skips unnamed elements, reads a checkbox as the
  boolean of its checked state and any other input as its string value, and
  asks the optional filter whether to store each pair. It writes into the
  destination object, or into a new empty object when none is given, and
  returns that object.
- `fillWithObject(o)` visits every key of `o` and selects the inputs with that
  name. If the first of them is a checkbox, it sets or clears the checked
  state of all of them from the value's truthiness. Otherwise it sets the
  value of all of them. It returns the scope.

Files:

- `Form.dfy`: field values (`Val = Text | Flag`), inputs (`Input`), truthiness,
  string coercion and the value extraction reads from an input.
- `Extract.dfy`: the destination object as a class `Dict` whose `entries` map is
  updated in place; the specification function `Extracted` (a left fold over
  the inputs); the method `ExtractObject` proved against it; and the lemmas
  about which keys appear and where their values come from.
- `Fill.dfy`: the specification function `Filled`; the methods
  `FirstIsCheckbox`, `FillKey` and `FillWithObject`, which update an
  `array<Input>` in place and are proved against it; and the lemmas about
  what filling changes.
- `RoundTrip.dfy`: fill-then-extract and extract-then-fill.

The inputs of a scope are an array of `Input` records in document order. An
array index is an element's identity: a jQuery collection holds each element
once. An element's name `""` stands for a missing or empty name attribute.

## Model

| member | source | states |
|---|---|---|
| `Form.ValText` | _attachments/js/jquery.objectform.js:25 | `.val(v)` stores a string unchanged and a boolean as `"true"`/`"false"` |
| `Form.Truthy` | _attachments/js/jquery.objectform.js:23 | the only falsy values are `false` and the empty string |
| `Form.InputValue` | _attachments/js/jquery.objectform.js:7-11 | a checkbox reads as the flag of its checked state, any other input as its string value |
| `Extract.Dict.constructor` | _attachments/js/jquery.objectform.js:3 | a destination created by the plugin starts empty |
| `Extract.Admits` | _attachments/js/jquery.objectform.js:12 | without a filter every pair passes; with one, a pair passes exactly when the filter, called with the current object, the name and the value, returns true |
| `Extract.Assign` | _attachments/js/jquery.objectform.js:5-13 | one input changes at most the entry under its own name; a named input whose pair passes the filter stores its coded value there; an unnamed or refused input changes nothing |
| `Extract.Extracted` | _attachments/js/jquery.objectform.js:3-15 | the in-order fold of `Assign` over the inputs, starting from the destination; it never removes a destination key |
| `Extract.ExtractObject` | _attachments/js/jquery.objectform.js:1-17 | the result is the supplied destination updated in place, or a fresh object when none is given; its entries are the fold `Extracted` over the inputs in order, starting from the destination's old entries or from the empty map; no input changes |
| `Extract.ExtractedFrame` | _attachments/js/jquery.objectform.js:3-13 | extraction never removes a key; it adds only keys that are the non-empty name of some input; a destination key that names no input keeps its value |
| `Extract.ExtractedValueOrigin` | _attachments/js/jquery.objectform.js:7-13 | every stored value either came from the destination or is the value of an input with that name: `Flag(checked)` for a checkbox, `Text(value)` for any other input |
| `Extract.VetoedInputNoEffect` | _attachments/js/jquery.objectform.js:12 | an input whose pair (current object, name, value) the filter refuses leaves the object unchanged |
| `Extract.VetoedNameUnchanged` | _attachments/js/jquery.objectform.js:12-13 | a filter that refuses every assignment to a name leaves that name exactly as it was in the destination: present with the same value, or absent |
| `Extract.UnfilteredKeys` | _attachments/js/jquery.objectform.js:4-13 | without a filter, the result's keys are the destination's keys plus every non-empty input name |
| `Extract.LastWriteWins` | _attachments/js/jquery.objectform.js:4-13 | without a filter, the last input with a given name decides that key's value: its checked state for a checkbox, its string value otherwise |
| `Extract.ExtractIdempotent` | _attachments/js/jquery.objectform.js:3-16 | without a filter, extracting a second time into the result changes nothing |
| `Fill.FirstMatch` | _attachments/js/jquery.objectform.js:21-22 | the position found is that of an input with the name, and no earlier input has it; nothing is found only when no input has the name |
| `Fill.SelectsCheckbox` | _attachments/js/jquery.objectform.js:22 | the inputs of a name are handled as checkboxes exactly when some input of that name is a checkbox and no earlier input has the name |
| `Fill.Written` | _attachments/js/jquery.objectform.js:23-25 | a write never changes name or kind; as a checkbox it sets the checked state to the value's truthiness and keeps the string value; otherwise it sets the string value to `.val`'s text of the value and keeps the checked state |
| `Fill.Filled` | _attachments/js/jquery.objectform.js:20-25 | filling never changes the number of inputs, their names or their kinds |
| `Fill.SameShapeSelects` | _attachments/js/jquery.objectform.js:21-22 | which inputs match a key, and whether they are handled as checkboxes, depends only on names and kinds |
| `Fill.FilledDisjointUnion` | _attachments/js/jquery.objectform.js:20-26 | filling with two objects with disjoint keys one after the other equals filling with their union, so the order of the key loop does not matter |
| `Fill.UnmatchedKeyNoEffect` | _attachments/js/jquery.objectform.js:21-25 | a key that names no input has no effect |
| `Fill.FirstIsCheckbox` | _attachments/js/jquery.objectform.js:22 | the type test looks only at the first input with the name; with no match it is false |
| `Fill.FillKey` | _attachments/js/jquery.objectform.js:21-25 | one key is written to every input with that name, as checked state when the first match is a checkbox and as value otherwise; all other inputs are unchanged |
| `Fill.FillWithObject` | _attachments/js/jquery.objectform.js:19-28 | visiting the keys in any order, the inputs end up as `Filled(old inputs, o)`: only inputs named by a key change; the scope is returned |
| `RoundTrip.FilledNamedKeys` | _attachments/js/jquery.objectform.js:20-25 | filling never changes which names extraction can store |
| `RoundTrip.FillThenExtract` | _attachments/js/jquery.objectform.js:8-25 | after filling with `o`, extraction gives back `o[k]` for every key `k` that names an input, provided the inputs with that name are checkboxes for a boolean and other inputs for a string; other keys are unconstrained; names may repeat |
| `RoundTrip.FillThenExtractExact` | _attachments/js/jquery.objectform.js:1-28 | when the keys of `o` are exactly the input names, fill then extract into a new object returns `o` |
| `RoundTrip.ExtractThenFillAt` | _attachments/js/jquery.objectform.js:7-25 | with unique names, filling a named input with the value extraction stored for it gives the input back unchanged |
| `RoundTrip.ExtractThenFill` | _attachments/js/jquery.objectform.js:1-28 | when no two inputs share a name, filling with what extraction returned leaves every input as it was |
| `RoundTrip.TwoFieldExample` | _attachments/js/jquery.objectform.js:1-28 | a text input `a` and an unchecked checkbox `b` extract to `{a: "", b: false}`; filling with `{a: "hello", b: true}` and extracting gives that object back |

With several inputs of one name, the plugin reads the type of the first and
writes to all of them; with none, it writes nothing.

## Left out

- The selector engine and `:input` matching: the inputs of a scope are given directly as the array, and the scope that `fillWithObject` returns is that array.
- The selector string built from a key: a key containing `'` or `]` breaks the selector.
- Fill.Filled: a key `""` writes every input whose model name is `""`, which includes inputs with no name attribute at all; the selector `[name='']` matches only inputs whose name attribute is present and empty. The model does not tell a missing name attribute from an empty one.
- Extract.Extracted: an input named `__proto__` stores a key `__proto__`; in JavaScript the assignment goes to the object's prototype setter, which ignores strings and booleans, so nothing is stored.
- The order of `for…in` and inherited prototype properties: `FillWithObject` visits the keys of a map in an unspecified order, and `FilledDisjointUnion` shows that the order does not change the result.
- JavaScript values other than strings and booleans (numbers, `null`, objects), their truthiness and their string coercion in `.val()`.
- Side effects of the caller's filter: the filter is a pure function of the current object, the name and the value.
- Radio groups, `<select multiple>` and textarea specifics; the differences between `attr("checked")` and `prop("checked")` across jQuery versions (the checked state is read and written directly).
- Falsy destinations other than a missing one (`false`, `0`, `""`): the source replaces them with a new object too; the model's destination is either an object or absent (`null`).
- Browser and jQuery cleaning of values: an input's value is stored and read verbatim. The model does not capture that jQuery's `.val()` getter drops every `\r`, or that the browser cleans a value on assignment according to the input type (a text input drops line breaks, a number input turns a non-number into `""`). Single `<select>` elements are left out: a value none of their options has leaves nothing selected, and `.val()` then returns `null`. File inputs are left out: they throw on a non-empty write, which stops the rest of the fill loop. The round-trip lemmas (`FillThenExtract`, `FillThenExtractExact`, `ExtractThenFill`) hold for inputs that keep what is written to them.
- The live DOM, events and timing.
