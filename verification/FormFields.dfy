/** AcroForm values: `toFormField`, `readFormFields`, and folding them into the text. */
module FormFields {
  import opened Prelude
  import opened Strings
  import opened PdfItems

  /** One entry of the parser's field map; a property of another type is no use and counts as missing. */
  datatype Entry = Entry(name: Option<string>, value: Option<string>, page: Option<int>,
                         rect: Option<seq<Option<real>>>)

  datatype FormField = FormField(name: string, value: string, page: nat, x: real, y: real, width: real, height: real)

  /** A filled widget: a value that is not blank, on a page, with a rectangle. */
  predicate Filled(e: Entry) {
    && e.name.Some? && e.value.Some? && Trim(e.value.value) != []
    && e.page.Some? && e.page.value >= 0
    && e.rect.Some? && |e.rect.value| >= 4 && forall i :: 0 <= i < |e.rect.value| ==> e.rect.value[i].Some?
  }

  function ToFormField(e: Entry): Option<FormField> {
    if !Filled(e) then None
    else
      var x1, y1, x2, y2 := e.rect.value[0].value, e.rect.value[1].value, e.rect.value[2].value, e.rect.value[3].value;
      Some(FormField(e.name.value, Trim(e.value.value), e.page.value + 1,
                     Min(x1, x2), Min(y1, y2), Abs(x2 - x1), Abs(y2 - y1)))
  }

  function Find(fields: seq<FormField>, name: string): Option<FormField> {
    if fields == [] then None
    else if fields[0].name == name then Some(fields[0])
    else Find(fields[1..], name)
  }

  /** The first filled widget of a name among the entries. */
  function FirstFilled(entries: seq<Entry>, name: string): Option<FormField> {
    if entries == [] then None
    else
      var field := ToFormField(entries[0]);
      if field.Some? && field.value.name == name then field else FirstFilled(entries[1..], name)
  }

  predicate DistinctNames(fields: seq<FormField>) {
    forall i, j :: 0 <= i < j < |fields| ==> fields[i].name != fields[j].name
  }

  predicate Filling(fields: seq<FormField>) {
    forall i :: 0 <= i < |fields| ==> Tight(fields[i].value)
  }

  /** One field per name with a filled widget, and that is the first one; names in the order of those widgets. */
  ghost predicate FirstOfEach(fields: seq<FormField>, entries: seq<Entry>) {
    && DistinctNames(fields) && Filling(fields)
    && (forall name :: Find(fields, name) == FirstFilled(entries, name))
    && (forall i, j :: 0 <= i < j < |fields| ==>
          FirstPlace(entries, fields[i].name) < FirstPlace(entries, fields[j].name))
  }

  /** Where the first filled widget of a name stands; behind all entries if there is none. */
  function FirstPlace(entries: seq<Entry>, name: string): (k: nat)
    ensures k <= |entries| && (k == |entries| <==> FirstFilled(entries, name).None?)
  {
    if entries == [] then 0
    else
      var field := ToFormField(entries[0]);
      if field.Some? && field.value.name == name then 0 else 1 + FirstPlace(entries[1..], name)
  }

  lemma {:induction false} FirstPlaceSnoc(entries: seq<Entry>, e: Entry, name: string)
    ensures FirstFilled(entries, name).Some? ==> FirstPlace(entries + [e], name) == FirstPlace(entries, name)
    ensures FirstFilled(entries, name).None? ==> FirstPlace(entries + [e], name) >= |entries|
  {
    if entries != [] {
      assert (entries + [e])[1..] == entries[1..] + [e];
      FirstPlaceSnoc(entries[1..], e, name);
    }
  }

  lemma {:induction false} FindSnoc(fields: seq<FormField>, field: FormField, name: string)
    ensures Find(fields + [field], name)
         == if Find(fields, name).Some? then Find(fields, name) else if field.name == name then Some(field) else None
  {
    if fields != [] {
      assert (fields + [field])[1..] == fields[1..] + [field];
      FindSnoc(fields[1..], field, name);
    }
  }

  lemma {:induction false} FirstFilledSnoc(entries: seq<Entry>, e: Entry, name: string)
    ensures FirstFilled(entries + [e], name)
         == if FirstFilled(entries, name).Some? then FirstFilled(entries, name)
            else if ToFormField(e).Some? && ToFormField(e).value.name == name then ToFormField(e) else None
  {
    if entries == [] {
      assert (entries + [e])[1..] == [];
    } else {
      assert (entries + [e])[1..] == entries[1..] + [e];
      FirstFilledSnoc(entries[1..], e, name);
    }
  }

  lemma {:induction false} FindFinds(fields: seq<FormField>, name: string)
    ensures Find(fields, name).None? <==> forall i :: 0 <= i < |fields| ==> fields[i].name != name
  {
    if fields != [] {
      FindFinds(fields[1..], name);
    }
  }

  /** What one entry makes of the fields so far. */
  function AddEntry(fields: seq<FormField>, e: Entry): seq<FormField> {
    var field := ToFormField(e);
    if field.None? || Find(fields, field.value.name).Some? then fields else fields + [field.value]
  }

  lemma OneEntryMoreFinds(fields: seq<FormField>, entries: seq<Entry>, e: Entry, name: string)
    requires Find(fields, name) == FirstFilled(entries, name)
    ensures Find(AddEntry(fields, e), name) == FirstFilled(entries + [e], name)
  {
    FirstFilledSnoc(entries, e, name);
    if AddEntry(fields, e) != fields {
      FindSnoc(fields, ToFormField(e).value, name);
    }
  }

  lemma PlacesStay(fields: seq<FormField>, entries: seq<Entry>, e: Entry, i: nat)
    requires FirstOfEach(fields, entries) && i < |fields|
    ensures FirstPlace(entries + [e], fields[i].name) == FirstPlace(entries, fields[i].name) < |entries|
  {
    FindFinds(fields, fields[i].name);
    assert FirstFilled(entries, fields[i].name).Some?;
    FirstPlaceSnoc(entries, e, fields[i].name);
  }

  lemma OneEntryMoreInOrder(fields: seq<FormField>, entries: seq<Entry>, e: Entry, i: nat, j: nat)
    requires FirstOfEach(fields, entries) && i < j < |AddEntry(fields, e)|
    ensures var fields' := AddEntry(fields, e);
      FirstPlace(entries + [e], fields'[i].name) < FirstPlace(entries + [e], fields'[j].name)
  {
    PlacesStay(fields, entries, e, i);
    if j < |fields| {
      PlacesStay(fields, entries, e, j);
    } else {
      var name := ToFormField(e).value.name;
      assert FirstFilled(entries, name) == Find(fields, name) == None;
      FirstPlaceSnoc(entries, e, name);
    }
  }

  lemma OneEntryMore(fields: seq<FormField>, entries: seq<Entry>, e: Entry)
    requires FirstOfEach(fields, entries)
    ensures FirstOfEach(AddEntry(fields, e), entries + [e])
  {
    var fields' := AddEntry(fields, e);
    forall name
      ensures Find(fields', name) == FirstFilled(entries + [e], name)
    {
      OneEntryMoreFinds(fields, entries, e, name);
    }
    forall i, j | 0 <= i < j < |fields'|
      ensures FirstPlace(entries + [e], fields'[i].name) < FirstPlace(entries + [e], fields'[j].name)
    {
      OneEntryMoreInOrder(fields, entries, e, i, j);
    }
    if fields' != fields {
      FindFinds(fields, ToFormField(e).value.name);
    }
  }

  method ReadFormFields(groups: seq<seq<Entry>>) returns (fields: seq<FormField>)
    ensures FirstOfEach(fields, Flatten(groups))
  {
    fields := [];
    for g := 0 to |groups|
      invariant FirstOfEach(fields, Flatten(groups[..g]))
    {
      fields := ReadGroup(fields, groups[g], Flatten(groups[..g]));
      FlattenAppend(groups[..g], [groups[g]]);
      FlattenOne(groups[g]);
      assert groups[..g + 1] == groups[..g] + [groups[g]];
    }
    assert groups[..|groups|] == groups;
  }

  method ReadGroup(fields0: seq<FormField>, entries: seq<Entry>, ghost before: seq<Entry>)
    returns (fields: seq<FormField>)
    requires FirstOfEach(fields0, before)
    ensures fields0 <= fields && FirstOfEach(fields, before + entries)
  {
    fields := fields0;
    assert before + entries[..0] == before;
    for i := 0 to |entries|
      invariant fields0 <= fields && FirstOfEach(fields, before + entries[..i])
    {
      var field := ToFormField(entries[i]);
      OneEntryMore(fields, before + entries[..i], entries[i]);
      assert before + entries[..i] + [entries[i]] == before + entries[..i + 1];
      if field.Some? && Find(fields, field.value.name).None? {
        fields := fields + [field.value];
      }
    }
    assert entries[..|entries|] == entries;
  }

  // ----- Folding -----

  function FoldField(a: Anchored, f: FormField): Anchored {
    var lead := a.text + f.name + ": ";
    Anchored(lead + f.value + "\n",
             a.items + [Run(|lead|, |lead + f.value|, f.page, f.x, f.y, f.width, f.height)])
  }

  function FoldFields(a: Anchored, fields: seq<FormField>): Anchored {
    if fields == [] then a else FoldField(FoldFields(a, Front(fields)), Last(fields))
  }

  function Values(fields: seq<FormField>): (values: seq<string>)
    ensures |values| == |fields| && forall i :: 0 <= i < |fields| ==> values[i] == fields[i].value
  {
    seq(|fields|, i requires 0 <= i < |fields| => fields[i].value)
  }

  method FoldFormFields(layer: Anchored, fields: seq<FormField>) returns (a: Anchored)
    ensures a == FoldFields(layer, fields)
  {
    var text, items := layer.text, layer.items;
    for i := 0 to |fields|
      invariant Anchored(text, items) == FoldFields(layer, fields[..i])
    {
      assert Front(fields[..i + 1]) == fields[..i];
      var f := fields[i];
      var start := |text + f.name + ": "|;
      text := text + f.name + ": " + f.value + "\n";
      items := items + [Run(start, start + |f.value|, f.page, f.x, f.y, f.width, f.height)];
    }
    assert fields[..|fields|] == fields;
    a := Anchored(text, items);
  }

  /** Every value is selected by its widget's item, after what the layer's items select. */
  lemma {:induction false} FoldedFieldsAreExact(layer: Anchored, words: seq<string>, fields: seq<FormField>)
    requires Exact(layer, words) && Filling(fields)
    ensures Exact(FoldFields(layer, fields), words + Values(fields))
  {
    if fields == [] {
      assert words + Values(fields) == words;
    } else {
      var f, a := Last(fields), FoldFields(layer, Front(fields));
      FoldedFieldsAreExact(layer, words, Front(fields));
      var one := Run(0, |f.value|, f.page, f.x, f.y, f.width, f.height);
      assert Selects(f.value, one, f.value);
      AnchorsAppend(a.text, a.items, words + Values(Front(fields)), f.name + ": ", f.value, [one], [f.value], "\n");
      assert a.text + (f.name + ": ") == a.text + f.name + ": ";
      assert ShiftAll([one], |a.text + f.name + ": "|) == [Last(FoldField(a, f).items)];
      assert words + Values(Front(fields)) + [f.value] == words + Values(fields);
    }
  }
}
