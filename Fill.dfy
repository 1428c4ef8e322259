/** `$.fn.fillWithObject`: write every entry of an object into the inputs
    that carry the entry's key as their name. */
module Fill {
  import opened Form

  /** The position of the first input named `name`, which is the element
      jQuery's `.attr("type")` getter reads from a matched set. */
  function FirstMatch(fs: seq<Input>, name: string): (r: Option<nat>)
    ensures r.Some? ==> r.value < |fs| && fs[r.value].name == name
    ensures r.Some? ==> forall j :: 0 <= j < r.value ==> fs[j].name != name
    ensures r.None? ==> forall j :: 0 <= j < |fs| ==> fs[j].name != name
    decreases |fs|
  {
    if fs == [] then None
    else if fs[0].name == name then Some(0)
    else match FirstMatch(fs[1..], name)
      case None => None
      case Some(j) => Some(j + 1)
  }

  /** Whether the inputs named `name` are handled as checkboxes: the first of
      them is one. No match reads as "not a checkbox". */
  predicate SelectsCheckbox(fs: seq<Input>, name: string): (b: bool)
    ensures b <==> exists i :: 0 <= i < |fs| && fs[i].name == name && fs[i].isCheckbox
                               && forall j :: 0 <= j < i ==> fs[j].name != name
  {
    match FirstMatch(fs, name)
    case None => false
    case Some(i) => fs[i].isCheckbox
  }

  /** One matched input after a write of `v`: the checked state becomes the
      truthiness of `v` when the set is handled as checkboxes, the string
      value becomes `v` otherwise. */
  function Written(e: Input, v: Val, asCheckbox: bool): (r: Input)
    ensures r.name == e.name && r.isCheckbox == e.isCheckbox
    ensures asCheckbox ==> r.checked == Truthy(v) && r.value == e.value
    ensures !asCheckbox ==> r.value == ValText(v) && r.checked == e.checked
  {
    if asCheckbox then e.(checked := Truthy(v)) else e.(value := ValText(v))
  }

  /** The inputs after filling with `o`. Every input whose name is a key of
      `o` is written with that key's value; every other input is left alone. */
  function Filled(fs: seq<Input>, o: map<string, Val>): (r: seq<Input>)
    ensures |r| == |fs|
    ensures forall i :: 0 <= i < |fs| ==> r[i].name == fs[i].name && r[i].isCheckbox == fs[i].isCheckbox
  {
    seq(|fs|, i requires 0 <= i < |fs| =>
      if fs[i].name in o then Written(fs[i], o[fs[i].name], SelectsCheckbox(fs, fs[i].name)) else fs[i])
  }

  /** Two input lists with the same names and kinds, position by position. */
  ghost predicate SameShape(fs: seq<Input>, gs: seq<Input>) {
    |fs| == |gs| && forall i :: 0 <= i < |fs| ==> fs[i].name == gs[i].name && fs[i].isCheckbox == gs[i].isCheckbox
  }

  /** Which inputs match a name, and whether they count as checkboxes,
      depends only on names and kinds, which filling never changes. */
  lemma {:induction false} SameShapeSelects(fs: seq<Input>, gs: seq<Input>, name: string)
    requires SameShape(fs, gs)
    ensures FirstMatch(fs, name) == FirstMatch(gs, name)
    ensures SelectsCheckbox(fs, name) == SelectsCheckbox(gs, name)
    decreases |fs|
  {
    if fs != [] && fs[0].name != name {
      SameShapeSelects(fs[1..], gs[1..], name);
    }
  }

  /** Filling with two objects whose keys are disjoint, one after the other,
      is filling with their union; so the order in which the keys of one
      object are visited does not matter. */
  lemma FilledDisjointUnion(fs: seq<Input>, a: map<string, Val>, b: map<string, Val>)
    requires a.Keys !! b.Keys
    ensures Filled(Filled(fs, a), b) == Filled(fs, a + b)
  {
    var mid := Filled(fs, a);
    var lhs := Filled(mid, b);
    var rhs := Filled(fs, a + b);
    forall i | 0 <= i < |fs| ensures lhs[i] == rhs[i] {
      var n := fs[i].name;
      if n in b {
        SameShapeSelects(mid, fs, n);
      }
    }
  }

  /** An entry whose key names no input has no effect. */
  lemma UnmatchedKeyNoEffect(fs: seq<Input>, o: map<string, Val>, k: string)
    requires forall i :: 0 <= i < |fs| ==> fs[i].name != k
    ensures Filled(fs, o) == Filled(fs, o - {k})
  {
    var lhs := Filled(fs, o);
    var rhs := Filled(fs, o - {k});
    forall i | 0 <= i < |fs| ensures lhs[i] == rhs[i] {
    }
  }

  /** The `.attr("type") == "checkbox"` test on the matched set: it looks at
      the first input with that name only. */
  method FirstIsCheckbox(inputs: array<Input>, name: string) returns (b: bool)
    ensures b == SelectsCheckbox(inputs[..], name)
  {
    var i := 0;
    while i < inputs.Length && inputs[i].name != name
      invariant 0 <= i <= inputs.Length
      invariant forall j :: 0 <= j < i ==> inputs[j].name != name
    {
      i := i + 1;
    }
    b := i < inputs.Length && inputs[i].isCheckbox;
  }

  /** One iteration of the fill loop: every input named `name` is written
      with `v`, as checkboxes if the first of them is one. */
  method FillKey(inputs: array<Input>, name: string, v: Val)
    modifies inputs
    ensures inputs[..] == Filled(old(inputs[..]), map[name := v])
  {
    var asCheckbox := FirstIsCheckbox(inputs, name);
    var j := 0;
    while j < inputs.Length
      invariant 0 <= j <= inputs.Length
      invariant forall k :: 0 <= k < j ==>
        inputs[k] == if old(inputs[k]).name == name then Written(old(inputs[k]), v, asCheckbox) else old(inputs[k])
      invariant forall k :: j <= k < inputs.Length ==> inputs[k] == old(inputs[k])
    {
      if inputs[j].name == name {
        if asCheckbox {
          inputs[j] := inputs[j].(checked := Truthy(v));
        } else {
          inputs[j] := inputs[j].(value := ValText(v));
        }
      }
      j := j + 1;
    }
  }

  /** Filling, as the plugin runs it: the keys of `o` are visited in an order
      the model leaves open, and the scope is returned for chaining. */
  method FillWithObject(inputs: array<Input>, o: map<string, Val>) returns (scope: array<Input>)
    modifies inputs
    ensures scope == inputs
    ensures inputs[..] == Filled(old(inputs[..]), o)
  {
    ghost var orig := inputs[..];
    var pending := o.Keys;
    while pending != {}
      invariant pending <= o.Keys
      invariant inputs[..] == Filled(orig, map k | k in o && k !in pending :: o[k])
      decreases pending
    {
      var p :| p in pending;
      ghost var done := map k | k in o && k !in pending :: o[k];
      FillKey(inputs, p, o[p]);
      FilledDisjointUnion(orig, done, map[p := o[p]]);
      pending := pending - {p};
      assert done + map[p := o[p]] == map k | k in o && k !in pending :: o[k];
    }
    assert o == map k | k in o && k !in pending :: o[k];
    scope := inputs;
  }
}
