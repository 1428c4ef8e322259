/** `$.fn.extractObject`: read every named input into a destination object,
    optionally letting a caller-supplied filter veto each assignment. */
module Extract {
  import opened Form

  /** The caller's filter, called with the object as it stands, the field
      name and the value about to be stored. */
  type Filter = (map<string, Val>, string, Val) -> bool

  /** A JavaScript object used as a string-keyed dictionary. */
  class Dict {
    var entries: map<string, Val>

    constructor ()
      ensures entries == map[]
    {
      entries := map[];
    }
  }

  /** Whether the (optional) filter lets `name := v` through. */
  predicate Admits(filter: Option<Filter>, o: map<string, Val>, name: string, v: Val): (ok: bool)
    ensures filter.None? ==> ok
    ensures filter.Some? ==> (ok <==> filter.value(o, name, v))
  {
    match filter
    case None => true
    case Some(f) => f(o, name, v)
  }

  /** The effect of one element on the object being built. */
  function Assign(o: map<string, Val>, e: Input, filter: Option<Filter>): (r: map<string, Val>)
    ensures forall k :: k != e.name ==> (k in r <==> k in o)
    ensures forall k :: k != e.name && k in o ==> r[k] == o[k]
    ensures e.name != "" && Admits(filter, o, e.name, InputValue(e)) ==> e.name in r && r[e.name] == InputValue(e)
    ensures e.name == "" || !Admits(filter, o, e.name, InputValue(e)) ==> r == o
  {
    if e.name == "" || !Admits(filter, o, e.name, InputValue(e)) then o
    else o[e.name := InputValue(e)]
  }

  /** The object after visiting the inputs `fs` in document order, starting
      from `dest`. */
  function Extracted(fs: seq<Input>, dest: map<string, Val>, filter: Option<Filter>): (r: map<string, Val>)
    ensures dest.Keys <= r.Keys
    decreases |fs|
  {
    if fs == [] then dest
    else Assign(Extracted(fs[..|fs| - 1], dest, filter), fs[|fs| - 1], filter)
  }

  /** Extraction, as the plugin runs it: a missing destination is replaced
      by a fresh empty object, the supplied one is updated in place and
      returned, and no input is changed. */
  method ExtractObject(inputs: array<Input>, destination: Dict?, filter: Option<Filter>)
    returns (o: Dict)
    modifies destination
    ensures destination != null ==> o == destination
    ensures destination == null ==> fresh(o)
    ensures inputs[..] == old(inputs[..])
    ensures o.entries
      == Extracted(inputs[..], if destination != null then old(destination.entries) else map[], filter)
  {
    if destination != null {
      o := destination;
    } else {
      o := new Dict();
    }
    ghost var start := o.entries;
    var i := 0;
    while i < inputs.Length
      invariant 0 <= i <= inputs.Length
      invariant o.entries == Extracted(inputs[..i], start, filter)
    {
      var el := inputs[i];
      if el.name != "" {
        var val: Val;
        if el.isCheckbox {
          val := Flag(el.checked);
        } else {
          val := Text(el.value);
        }
        var keep := match filter case None => true case Some(f) => f(o.entries, el.name, val);
        if keep {
          o.entries := o.entries[el.name := val];
        }
      }
      assert inputs[..i + 1][..i] == inputs[..i];
      i := i + 1;
    }
    assert inputs[..i] == inputs[..];
  }

  /** Extraction never removes a key, and only ever adds keys that are the
      non-empty name of some input; a key that names no input keeps the
      destination's entry. */
  lemma {:induction false} ExtractedFrame(fs: seq<Input>, dest: map<string, Val>, filter: Option<Filter>)
    ensures dest.Keys <= Extracted(fs, dest, filter).Keys <= dest.Keys + NamedKeys(fs)
    ensures forall k :: k in dest && k !in NamedKeys(fs) ==> Extracted(fs, dest, filter)[k] == dest[k]
    decreases |fs|
  {
    if fs != [] {
      var init := fs[..|fs| - 1];
      ExtractedFrame(init, dest, filter);
      assert NamedKeys(fs) == NamedKeys(init) + (if fs[|fs| - 1].name != "" then {fs[|fs| - 1].name} else {}) by {
        forall k | k in NamedKeys(fs) ensures k in NamedKeys(init) || k == fs[|fs| - 1].name {
          var i :| 0 <= i < |fs| && fs[i].name != "" && fs[i].name == k;
          if i < |fs| - 1 { assert init[i] == fs[i]; }
        }
        forall k | k in NamedKeys(init) ensures k in NamedKeys(fs) {
          var i :| 0 <= i < |init| && init[i].name != "" && init[i].name == k;
          assert fs[i] == init[i];
        }
      }
    }
  }

  /** Every stored value either was in the destination or is the coded
      value of an input carrying that name: the checked state of a checkbox,
      the string value of any other input. */
  lemma {:induction false} ExtractedValueOrigin(fs: seq<Input>, dest: map<string, Val>, filter: Option<Filter>, k: string)
    requires k in Extracted(fs, dest, filter)
    ensures var v := Extracted(fs, dest, filter)[k];
      (k in dest && v == dest[k])
      || exists i :: 0 <= i < |fs| && fs[i].name == k
           && (fs[i].isCheckbox ==> v == Flag(fs[i].checked))
           && (!fs[i].isCheckbox ==> v == Text(fs[i].value))
    decreases |fs|
  {
    if fs != [] {
      var init := fs[..|fs| - 1];
      var last := fs[|fs| - 1];
      var before := Extracted(init, dest, filter);
      if last.name == k && k != "" && Admits(filter, before, k, InputValue(last)) {
        assert Extracted(fs, dest, filter) == before[k := InputValue(last)];
        assert fs[|fs| - 1] == last;
      } else {
        ExtractedValueOrigin(init, dest, filter, k);
        var v := Extracted(fs, dest, filter)[k];
        if !(k in dest && v == dest[k]) {
          var i :| 0 <= i < |init| && init[i].name == k
            && (init[i].isCheckbox ==> v == Flag(init[i].checked))
            && (!init[i].isCheckbox ==> v == Text(init[i].value));
          assert fs[i] == init[i];
        }
      }
    }
  }

  /** A filter that vetoes every assignment to `k` leaves `k` exactly as it
      was in the destination: present with the same value, or absent. */
  lemma {:induction false} VetoedNameUnchanged(fs: seq<Input>, dest: map<string, Val>, f: Filter, k: string)
    requires forall o, v :: !f(o, k, v)
    ensures k in Extracted(fs, dest, Some(f)) <==> k in dest
    ensures k in dest ==> Extracted(fs, dest, Some(f))[k] == dest[k]
    decreases |fs|
  {
    if fs != [] {
      VetoedNameUnchanged(fs[..|fs| - 1], dest, f, k);
      var before := Extracted(fs[..|fs| - 1], dest, Some(f));
      assert !f(before, k, InputValue(fs[|fs| - 1]));
    }
  }

  /** An input whose assignment the filter refuses, given the object as it
      stands when that input is reached, leaves the object unchanged. */
  lemma VetoedInputNoEffect(fs: seq<Input>, e: Input, dest: map<string, Val>, f: Filter)
    requires !f(Extracted(fs, dest, Some(f)), e.name, InputValue(e))
    ensures Extracted(fs + [e], dest, Some(f)) == Extracted(fs, dest, Some(f))
  {
    assert (fs + [e])[..|fs|] == fs;
  }

  /** Without a filter, every input with a non-empty name ends up as a key,
      and nothing else is added. */
  lemma {:induction false} UnfilteredKeys(fs: seq<Input>, dest: map<string, Val>)
    ensures Extracted(fs, dest, None).Keys == dest.Keys + NamedKeys(fs)
    decreases |fs|
  {
    ExtractedFrame(fs, dest, None);
    forall k | k in NamedKeys(fs) ensures k in Extracted(fs, dest, None) {
      var i :| 0 <= i < |fs| && fs[i].name != "" && fs[i].name == k;
      LastWriteWins(fs, dest, LastIndexFrom(fs, i));
    }
  }

  /** The index of the last input that shares its name with input `i`. */
  ghost function LastIndexFrom(fs: seq<Input>, i: nat): (j: nat)
    requires i < |fs|
    ensures i <= j < |fs| && fs[j].name == fs[i].name
    ensures forall m :: j < m < |fs| ==> fs[m].name != fs[i].name
    decreases |fs| - i
  {
    if exists m :: i < m < |fs| && fs[m].name == fs[i].name then
      var m :| i < m < |fs| && fs[m].name == fs[i].name;
      LastIndexFrom(fs, m)
    else i
  }

  /** Without a filter the last input with a given non-empty name decides
      its value (last write wins), coded as a boolean for a checkbox and as
      the string value otherwise. */
  lemma {:induction false} LastWriteWins(fs: seq<Input>, dest: map<string, Val>, j: nat)
    requires j < |fs| && fs[j].name != ""
    requires forall m :: j < m < |fs| ==> fs[m].name != fs[j].name
    ensures fs[j].name in Extracted(fs, dest, None)
    ensures fs[j].isCheckbox ==> Extracted(fs, dest, None)[fs[j].name] == Flag(fs[j].checked)
    ensures !fs[j].isCheckbox ==> Extracted(fs, dest, None)[fs[j].name] == Text(fs[j].value)
    decreases |fs|
  {
    if j < |fs| - 1 {
      var init := fs[..|fs| - 1];
      assert init[j] == fs[j];
      LastWriteWins(init, dest, j);
    }
  }

  /** Without a filter, extracting a second time into the result of the first
      changes nothing. */
  lemma ExtractIdempotent(fs: seq<Input>, dest: map<string, Val>)
    ensures Extracted(fs, Extracted(fs, dest, None), None) == Extracted(fs, dest, None)
  {
    var once := Extracted(fs, dest, None);
    var twice := Extracted(fs, once, None);
    UnfilteredKeys(fs, dest);
    UnfilteredKeys(fs, once);
    forall k | k in once ensures twice[k] == once[k] {
      if k in NamedKeys(fs) {
        var i :| 0 <= i < |fs| && fs[i].name != "" && fs[i].name == k;
        var j := LastIndexFrom(fs, i);
        LastWriteWins(fs, dest, j);
        LastWriteWins(fs, once, j);
      } else {
        ExtractedFrame(fs, once, None);
      }
    }
  }
}
