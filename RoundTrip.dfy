/** How filling and extracting undo each other. */
module RoundTrip {
  import opened Form
  import opened Extract
  import opened Fill

  /** Every input named by a key of `o` has the kind that key's value is
      meant for: checkboxes get booleans, other inputs get strings. */
  ghost predicate Compatible(fs: seq<Input>, o: map<string, Val>) {
    forall i :: 0 <= i < |fs| && fs[i].name in o ==> (fs[i].isCheckbox <==> o[fs[i].name].Flag?)
  }

  /** Input names that occur at most once (unnamed inputs aside). */
  ghost predicate UniqueNames(fs: seq<Input>) {
    forall i, j :: 0 <= i < |fs| && 0 <= j < |fs| && fs[i].name != "" && fs[i].name == fs[j].name ==> i == j
  }

  /** Filling never changes which names can be extracted. */
  lemma FilledNamedKeys(fs: seq<Input>, o: map<string, Val>)
    ensures NamedKeys(Filled(fs, o)) == NamedKeys(fs)
  {
    var r := Filled(fs, o);
    forall k | k in NamedKeys(r) ensures k in NamedKeys(fs) {
      var i :| 0 <= i < |r| && r[i].name != "" && r[i].name == k;
    }
    forall k | k in NamedKeys(fs) ensures k in NamedKeys(r) {
      var i :| 0 <= i < |fs| && fs[i].name != "" && fs[i].name == k;
      assert r[i].name == k;
    }
  }

  /** Fill, then extract: a key of `o` that names an input comes back with
      the value it was filled with. Inputs may share that name, as long as
      each of them has the kind its value is meant for; other keys do not
      matter. */
  lemma FillThenExtract(fs: seq<Input>, o: map<string, Val>, dest: map<string, Val>, k: string)
    requires k in o && k in NamedKeys(fs)
    requires forall i :: 0 <= i < |fs| && fs[i].name == k ==> (fs[i].isCheckbox <==> o[k].Flag?)
    ensures k in Extracted(Filled(fs, o), dest, None)
    ensures Extracted(Filled(fs, o), dest, None)[k] == o[k]
  {
    var r := Filled(fs, o);
    var i :| 0 <= i < |fs| && fs[i].name != "" && fs[i].name == k;
    assert r[i].name == k;
    var j := LastIndexFrom(r, i);
    LastWriteWins(r, dest, j);
    var m := FirstMatch(fs, k).value;
    assert fs[m].isCheckbox == fs[j].isCheckbox;
  }

  /** With the keys of `o` being exactly the names of the inputs, fill then
      extract into a fresh object gives `o` back. */
  lemma FillThenExtractExact(fs: seq<Input>, o: map<string, Val>)
    requires Compatible(fs, o)
    requires o.Keys == NamedKeys(fs)
    ensures Extracted(Filled(fs, o), map[], None) == o
  {
    var r := Extracted(Filled(fs, o), map[], None);
    UnfilteredKeys(Filled(fs, o), map[]);
    FilledNamedKeys(fs, o);
    forall k | k in o ensures r[k] == o[k] {
      FillThenExtract(fs, o, map[], k);
    }
  }

  /** With unique names, an input that extraction stored comes back from
      fill unchanged. */
  lemma ExtractThenFillAt(fs: seq<Input>, o: map<string, Val>, i: nat)
    requires UniqueNames(fs) && o == Extracted(fs, map[], None)
    requires i < |fs| && fs[i].name != ""
    ensures Filled(fs, o)[i] == fs[i]
  {
    var n := fs[i].name;
    LastWriteWins(fs, map[], i);
    assert o[n] == InputValue(fs[i]);
    assert FirstMatch(fs, n) == Some(i);
    assert SelectsCheckbox(fs, n) == fs[i].isCheckbox;
  }

  /** Extract into a fresh object, then fill with it: when no two inputs
      share a name, every input is left as it was. */
  lemma ExtractThenFill(fs: seq<Input>)
    requires UniqueNames(fs)
    ensures Filled(fs, Extracted(fs, map[], None)) == fs
  {
    var o := Extracted(fs, map[], None);
    var r := Filled(fs, o);
    UnfilteredKeys(fs, map[]);
    assert "" !in NamedKeys(fs);
    forall i | 0 <= i < |fs| ensures r[i] == fs[i] {
      if fs[i].name != "" {
        ExtractThenFillAt(fs, o, i);
      }
    }
  }

  /** The example of a text input `a` and an unchecked checkbox `b`:
      extraction gives `{a: "", b: false}`, and filling with
      `{a: "hello", b: true}` then extracting gives that object back. */
  lemma TwoFieldExample()
    ensures var fs := [Input("a", false, "", false), Input("b", true, "on", false)];
      && Extracted(fs, map[], None) == map["a" := Text(""), "b" := Flag(false)]
      && Extracted(Filled(fs, map["a" := Text("hello"), "b" := Flag(true)]), map[], None)
         == map["a" := Text("hello"), "b" := Flag(true)]
  {
    var fs := [Input("a", false, "", false), Input("b", true, "on", false)];
    var o := map["a" := Text("hello"), "b" := Flag(true)];
    assert fs[..1] == [fs[0]];
    assert NamedKeys(fs) == {"a", "b"} by {
      assert fs[0].name == "a" && fs[1].name == "b";
    }
    FillThenExtractExact(fs, o);
  }
}
