/** The in-memory editing of pins: the selection recorded on a pin click,
    the detail panel's fields, the edit/save button, and the save that
    writes the panel's values back into every pin whose `ID` matches the
    selection. */
module Editor {
  import opened Properties
  import opened Sidebar
  import opened Popups

  /** The edit/save button's label ("Edit" or "Save"), which is also the
      panel's mode. */
  datatype Mode = Edit | Save

  /** A pin layer: its feature's properties and the popup bound to it
      (None until the pins are ready). */
  datatype Pin = Pin(props: Props, popup: Option<string>)

  // ---------------------------------------------------------------------
  // The updates object

  /** No two value fields decode to the same key. */
  predicate DistinctFieldKeys(rows: seq<Row>) {
    forall i, j :: 0 <= i < j < |rows| ==> KeyOfFieldId(rows[i].id) != KeyOfFieldId(rows[j].id)
  }

  /** `updates`: for each value field in document order,
      `updates[key] = value` with the key stripped from the field's id. */
  function UpdatesOf(rows: seq<Row>): (u: Props)
    ensures |u| <= |rows|
  {
    if rows == [] then []
    else
      var last := rows[|rows| - 1];
      SetProp(UpdatesOf(rows[..|rows| - 1]), KeyOfFieldId(last.id), last.value)
  }

  /** The `forEach` over the value fields that builds `updates`. */
  method CollectUpdates(rows: seq<Row>) returns (updates: Props)
    ensures updates == UpdatesOf(rows)
  {
    updates := [];
    var i := 0;
    while i < |rows|
      invariant 0 <= i <= |rows|
      invariant updates == UpdatesOf(rows[..i])
    {
      assert rows[..i + 1][..i] == rows[..i];
      var key := KeyOfFieldId(rows[i].id);
      updates := SetProp(updates, key, rows[i].value);
      i := i + 1;
    }
    assert rows[..i] == rows;
  }

  /** The object built from the fields: one entry per field, in field
      order, when the decoded keys are distinct. */
  function UpdateEntries(rows: seq<Row>): (u: Props)
    ensures |u| == |rows|
    ensures forall i :: 0 <= i < |rows| ==> u[i] == Entry(KeyOfFieldId(rows[i].id), rows[i].value)
  {
    if rows == [] then []
    else
      var last := rows[|rows| - 1];
      UpdateEntries(rows[..|rows| - 1]) + [Entry(KeyOfFieldId(last.id), last.value)]
  }

  lemma {:induction false} UpdatesOfEntries(rows: seq<Row>)
    requires DistinctFieldKeys(rows)
    ensures UpdatesOf(rows) == UpdateEntries(rows)
  {
    if rows != [] {
      var n := |rows| - 1;
      var prev, last := rows[..n], rows[n];
      var k := KeyOfFieldId(last.id);
      assert DistinctFieldKeys(prev) by {
        forall i, j | 0 <= i < j < n ensures KeyOfFieldId(prev[i].id) != KeyOfFieldId(prev[j].id) {
          assert prev[i] == rows[i] && prev[j] == rows[j];
        }
      }
      UpdatesOfEntries(prev);
      var e := UpdateEntries(prev);
      assert k !in KeysOf(e) by {
        forall i | 0 <= i < n ensures KeysOf(e)[i] != k {
          assert e[i].key == KeyOfFieldId(prev[i].id);
          assert prev[i] == rows[i];
        }
      }
      SetPropNew(e, k, last.value);
    }
  }

  /** `updates` is a JavaScript object: its keys are distinct. */
  lemma {:induction false} UpdatesOfDistinct(rows: seq<Row>)
    ensures DistinctKeys(UpdatesOf(rows))
  {
    if rows != [] {
      var last := rows[|rows| - 1];
      UpdatesOfDistinct(rows[..|rows| - 1]);
      SetPropDistinct(UpdatesOf(rows[..|rows| - 1]), KeyOfFieldId(last.id), last.value);
    }
  }

  // ---------------------------------------------------------------------
  // Writing the updates into a matching feature

  /** `for (let key in updates) properties[key] = updates[key]`. */
  function AssignAll(p: Props, updates: Props): (r: Props)
    decreases |updates|
    ensures |p| <= |r| <= |p| + |updates|
  {
    if updates == [] then p
    else AssignAll(SetProp(p, updates[0].key, updates[0].value), updates[1..])
  }

  method AssignAllLoop(p: Props, updates: Props) returns (r: Props)
    ensures r == AssignAll(p, updates)
  {
    r := p;
    var i := 0;
    while i < |updates|
      invariant 0 <= i <= |updates|
      invariant AssignAll(r, updates[i..]) == AssignAll(p, updates)
    {
      assert updates[i..][0] == updates[i] && updates[i..][1..] == updates[i + 1..];
      r := SetProp(r, updates[i].key, updates[i].value);
      i := i + 1;
    }
  }

  /** After the loop every key of `updates` holds its new value and every
      other key its old one. */
  lemma {:induction false} AssignAllSpec(p: Props, updates: Props)
    requires DistinctKeys(updates)
    decreases |updates|
    ensures forall k :: Get(AssignAll(p, updates), k)
                        == if k in KeysOf(updates) then Get(updates, k) else Get(p, k)
  {
    if updates != [] {
      var u0, rest := updates[0], updates[1..];
      var p1 := SetProp(p, u0.key, u0.value);
      SetPropGet(p, u0.key, u0.value);
      TailDistinct(updates);
      AssignAllSpec(p1, rest);
      forall k ensures Get(AssignAll(p, updates), k)
                       == if k in KeysOf(updates) then Get(updates, k) else Get(p, k)
      {
        if k == u0.key {
          assert k !in KeysOf(rest);
        }
      }
    }
  }

  /** The loop never removes or moves a key: the old keys stay, in order,
      and only keys of `updates` are appended. */
  lemma {:induction false} AssignAllKeys(p: Props, updates: Props)
    decreases |updates|
    ensures KeysOf(p) <= KeysOf(AssignAll(p, updates))
    ensures forall k :: k in KeysOf(AssignAll(p, updates)) ==> k in KeysOf(p) || k in KeysOf(updates)
  {
    if updates != [] {
      var u0, rest := updates[0], updates[1..];
      var p1 := SetProp(p, u0.key, u0.value);
      SetPropKeys(p, u0.key, u0.value);
      AssignAllKeys(p1, rest);
      assert KeysOf(updates) == [u0.key] + KeysOf(rest);
    }
  }

  lemma {:induction false} AssignAllDistinct(p: Props, updates: Props)
    requires DistinctKeys(p)
    decreases |updates|
    ensures DistinctKeys(AssignAll(p, updates))
  {
    if updates != [] {
      SetPropDistinct(p, updates[0].key, updates[0].value);
      AssignAllDistinct(SetProp(p, updates[0].key, updates[0].value), updates[1..]);
    }
  }

  /** Updates that repeat the stored values change nothing. */
  lemma {:induction false} AssignAllSame(p: Props, updates: Props)
    requires forall i :: 0 <= i < |updates| ==> Get(p, updates[i].key) == Some(updates[i].value)
    decreases |updates|
    ensures AssignAll(p, updates) == p
  {
    if updates != [] {
      SetPropSame(p, updates[0].key, updates[0].value);
      AssignAllSame(p, updates[1..]);
    }
  }

  /** The new properties of a feature whose `ID` matches: `Name` when the
      field is non-empty, then `Description`, then every key of `updates`. */
  function SavedProps(p: Props, description: string, updates: Props): (r: Props)
    ensures |p| <= |r| <= |p| + 2 + |updates|
  {
    var named := if Truthy(Get(updates, "Name"))
                 then SetProp(p, "Name", Get(updates, "Name").value) else p;
    AssignAll(SetProp(named, "Description", description), updates)
  }

  /** A save gives `Description` the edited text and every key of `updates`
      its value, and leaves every other key alone. */
  lemma SavedPropsSpec(p: Props, description: string, updates: Props)
    requires DistinctKeys(updates)
    ensures forall k :: k in KeysOf(updates) ==>
      Get(SavedProps(p, description, updates), k) == Get(updates, k)
    ensures "Description" !in KeysOf(updates) ==>
      Get(SavedProps(p, description, updates), "Description") == Some(description)
    ensures forall k :: k !in KeysOf(updates) && k != "Description" ==>
      Get(SavedProps(p, description, updates), k) == Get(p, k)
  {
    var named := if Truthy(Get(updates, "Name"))
                 then SetProp(p, "Name", Get(updates, "Name").value) else p;
    var described := SetProp(named, "Description", description);
    if Truthy(Get(updates, "Name")) {
      SetPropGet(p, "Name", Get(updates, "Name").value);
    }
    SetPropGet(named, "Description", description);
    AssignAllSpec(described, updates);
    forall k | k !in KeysOf(updates) && k != "Description"
      ensures Get(described, k) == Get(p, k)
    {
      if Truthy(Get(updates, "Name")) {
        assert k != "Name";
      }
    }
  }

  /** A save never removes or reorders a key, and adds only `Description`
      and keys of `updates`. */
  lemma SavedPropsKeys(p: Props, description: string, updates: Props)
    ensures KeysOf(p) <= KeysOf(SavedProps(p, description, updates))
    ensures forall k :: k in KeysOf(SavedProps(p, description, updates)) ==>
      k in KeysOf(p) || k in KeysOf(updates) || k == "Description"
  {
    var named := if Truthy(Get(updates, "Name"))
                 then SetProp(p, "Name", Get(updates, "Name").value) else p;
    var described := SetProp(named, "Description", description);
    if Truthy(Get(updates, "Name")) {
      SetPropKeys(p, "Name", Get(updates, "Name").value);
    }
    SetPropKeys(named, "Description", description);
    AssignAllKeys(described, updates);
    assert KeysOf(p) <= KeysOf(named);
    assert KeysOf(named) <= KeysOf(described);
  }

  lemma SavedPropsDistinct(p: Props, description: string, updates: Props)
    requires DistinctKeys(p)
    ensures DistinctKeys(SavedProps(p, description, updates))
  {
    var named := if Truthy(Get(updates, "Name"))
                 then SetProp(p, "Name", Get(updates, "Name").value) else p;
    if Truthy(Get(updates, "Name")) {
      SetPropDistinct(p, "Name", Get(updates, "Name").value);
    }
    SetPropDistinct(named, "Description", description);
    AssignAllDistinct(SetProp(named, "Description", description), updates);
  }

  /** Saving the stored description and stored values changes nothing. */
  lemma SavedPropsUnchanged(p: Props, description: string, updates: Props)
    requires forall i :: 0 <= i < |updates| ==> Get(p, updates[i].key) == Some(updates[i].value)
    requires Get(p, "Description") == Some(description)
    ensures SavedProps(p, description, updates) == p
  {
    if Truthy(Get(updates, "Name")) {
      var v := Get(updates, "Name").value;
      var i :| 0 <= i < |updates| && updates[i] == Entry("Name", v);
      SetPropSame(p, "Name", v);
    }
    SetPropSame(p, "Description", description);
    AssignAllSame(p, updates);
  }

  /** Saving stored values into an object without `Description` only
      appends the description. */
  lemma SavedPropsAppendsDescription(p: Props, description: string, updates: Props)
    requires forall i :: 0 <= i < |updates| ==> Get(p, updates[i].key) == Some(updates[i].value)
    requires forall i :: 0 <= i < |updates| ==> updates[i].key != "Description"
    requires "Description" !in KeysOf(p)
    ensures SavedProps(p, description, updates) == p + [Entry("Description", description)]
  {
    if Truthy(Get(updates, "Name")) {
      var v := Get(updates, "Name").value;
      var i :| 0 <= i < |updates| && updates[i] == Entry("Name", v);
      SetPropSame(p, "Name", v);
    }
    var q := p + [Entry("Description", description)];
    SetPropNew(p, "Description", description);
    SetPropGet(p, "Description", description);
    assert forall i :: 0 <= i < |updates| ==> Get(q, updates[i].key) == Some(updates[i].value);
    AssignAllSame(q, updates);
  }

  /** The statements run on a matching feature's properties. */
  method SaveProps(p: Props, description: string, updates: Props) returns (r: Props)
    ensures r == SavedProps(p, description, updates)
  {
    r := p;
    var name := Get(updates, "Name");
    if Truthy(name) {
      r := SetProp(r, "Name", name.value);
    }
    r := SetProp(r, "Description", description);
    r := AssignAllLoop(r, updates);
  }

  /** The `eachLayer` callback of the save: a layer whose feature's `ID`
      equals the selection gets the saved properties and a rebuilt popup. */
  method SaveLayer(pin: Pin, selected: Option<string>, description: string, updates: Props)
    returns (r: Pin)
    requires DistinctKeys(pin.props)
    ensures r == SavePin(pin, selected, description, updates)
    ensures DistinctKeys(r.props)
  {
    r := pin;
    if Get(pin.props, "ID") == selected {
      SavedPropsDistinct(pin.props, description, updates);
      var props := SaveProps(pin.props, description, updates);
      r := Pin(props, Some(SavePopup(props)));
    }
  }

  /** The effect of a save on one pin layer. */
  function SavePin(pin: Pin, selected: Option<string>, description: string, updates: Props): (r: Pin)
    ensures Get(pin.props, "ID") == selected ==> r.popup == Some(SavePopup(r.props))
  {
    if Get(pin.props, "ID") == selected then
      var props := SavedProps(pin.props, description, updates);
      Pin(props, Some(SavePopup(props)))
    else pin
  }

  /** A layer with the popup bound once the pins are ready. */
  function BindLoadPopup(pin: Pin): (r: Pin)
    ensures r.props == pin.props && r.popup == Some(LoadPopup(r.props))
  {
    Pin(pin.props, Some(LoadPopup(pin.props)))
  }

  /** The layers after the `ready` handler. */
  function BoundLayers(pins: seq<Pin>): (r: seq<Pin>)
    ensures |r| == |pins|
  {
    if pins == [] then [] else [BindLoadPopup(pins[0])] + BoundLayers(pins[1..])
  }

  lemma {:induction false} BoundLayersAt(pins: seq<Pin>, k: nat)
    requires k < |pins|
    ensures BoundLayers(pins)[k] == BindLoadPopup(pins[k])
  {
    if k > 0 {
      BoundLayersAt(pins[1..], k - 1);
    }
  }

  /** The layers after a save. */
  function SavedLayers(pins: seq<Pin>, selected: Option<string>, description: string, updates: Props): (r: seq<Pin>)
    ensures |r| == |pins|
  {
    if pins == [] then [] else [SavePin(pins[0], selected, description, updates)] + SavedLayers(pins[1..], selected, description, updates)
  }

  /** Each layer is saved on its own. */
  lemma {:induction false} SavedLayersAt(pins: seq<Pin>, selected: Option<string>, description: string, updates: Props, k: nat)
    requires k < |pins|
    ensures SavedLayers(pins, selected, description, updates)[k] == SavePin(pins[k], selected, description, updates)
  {
    if k > 0 {
      SavedLayersAt(pins[1..], selected, description, updates, k - 1);
    }
  }

  /** A save leaves every layer whose `ID` differs from the selection as
      it was. */
  lemma SavedLayersOthers(pins: seq<Pin>, selected: Option<string>, description: string, updates: Props)
    ensures forall k :: 0 <= k < |pins| && Get(pins[k].props, "ID") != selected ==>
      SavedLayers(pins, selected, description, updates)[k] == pins[k]
  {
    forall k | 0 <= k < |pins| && Get(pins[k].props, "ID") != selected
      ensures SavedLayers(pins, selected, description, updates)[k] == pins[k]
    {
      SavedLayersAt(pins, selected, description, updates, k);
    }
  }

  /** The updates read back from a panel populated from `p` repeat values
      stored in `p`, and never carry `Description`. */
  lemma PopulatedUpdates(p: Props)
    requires DistinctKeys(p)
    ensures forall i :: 0 <= i < |UpdatesOf(Rows(p))| ==>
      Get(p, UpdatesOf(Rows(p))[i].key) == Some(UpdatesOf(Rows(p))[i].value)
    ensures forall i :: 0 <= i < |UpdatesOf(Rows(p))| ==> UpdatesOf(Rows(p))[i].key != "Description"
  {
    var rows := Rows(p);
    RowsSound(p);
    RowsDecode(p);
    UpdatesOfEntries(rows);
    var u := UpdatesOf(rows);
    forall i | 0 <= i < |u| ensures Get(p, u[i].key) == Some(u[i].value) && u[i].key != "Description" {
      assert u[i] == Entry(rows[i].key, rows[i].value);
      assert rows[i] in rows;
    }
  }

  /** Saving the panel exactly as it was populated from a feature leaves
      that feature's properties as they were, provided it has a
      `Description` (which may be empty). */
  lemma PopulatedSaveChangesNothing(p: Props)
    requires DistinctKeys(p)
    requires "Description" in KeysOf(p)
    ensures SavedProps(p, DescriptionText(p), UpdatesOf(Rows(p))) == p
  {
    PopulatedUpdates(p);
    SavedPropsUnchanged(p, DescriptionText(p), UpdatesOf(Rows(p)));
  }

  /** Without a `Description` the same save appends `Description: ""`, so
      the feature does change. */
  lemma PopulatedSaveAddsMissingDescription(p: Props)
    requires DistinctKeys(p)
    requires "Description" !in KeysOf(p)
    ensures SavedProps(p, DescriptionText(p), UpdatesOf(Rows(p))) == p + [Entry("Description", "")]
  {
    PopulatedUpdates(p);
    SavedPropsAppendsDescription(p, DescriptionText(p), UpdatesOf(Rows(p)));
  }

  /** The pin of the renaming example. */
  function RenamePin(): (p: Props) {
    [Entry("ID", "5"), Entry("Name", "Old"), Entry("Description", "d"), Entry("Canyon Region", "North")]
  }

  function RenamedPin(): (p: Props) {
    [Entry("ID", "5"), Entry("Name", "New"), Entry("Description", "d"), Entry("Canyon Region", "North")]
  }

  lemma RenameExampleRows()
    ensures Rows(RenamePin()) == [Row("Name", "Old", FieldId("Name")),
                                  Row("Canyon Region", "North", FieldId("Canyon Region"))]
  {
    var p := RenamePin();
    assert Rows(p[4..]) == [];
    assert Rows(p[3..]) == [Row("Canyon Region", "North", FieldId("Canyon Region"))];
    assert Rows(p[2..]) == Rows(p[3..]);
    assert Rows(p[1..]) == [Row("Name", "Old", FieldId("Name"))] + Rows(p[2..]);
  }

  lemma RenameExampleNamed()
    ensures SetProp(RenamePin(), "Name", "New") == RenamedPin()
  {
    var p := RenamePin();
    assert SetProp(p[1..], "Name", "New") == [Entry("Name", "New")] + p[2..];
  }

  lemma RenameExamplePopup()
    ensures SavePopup(RenamedPin()) == NameLabel + "New" + LineBreak + SaveRegionLabel + "North"
  {
    var named := RenamedPin();
    assert Get(named, "Name") == Some("New");
    assert Get(named, "Canyon Region") == Some("North");
  }

  /** Updates whose keys `p` already has leave its keys as they are. */
  lemma {:induction false} AssignAllSameKeys(p: Props, updates: Props)
    requires forall k :: k in KeysOf(updates) ==> k in KeysOf(p)
    decreases |updates|
    ensures KeysOf(AssignAll(p, updates)) == KeysOf(p)
  {
    if updates != [] {
      var u0, rest := updates[0], updates[1..];
      assert KeysOf(updates) == [u0.key] + KeysOf(rest);
      SetPropKeys(p, u0.key, u0.value);
      AssignAllSameKeys(SetProp(p, u0.key, u0.value), rest);
    }
  }

  /** A save whose updates add no key keeps the key order of `p`. */
  lemma SavedPropsSameKeys(p: Props, description: string, updates: Props)
    requires "Description" in KeysOf(p)
    requires forall kk :: kk in KeysOf(updates) ==> kk in KeysOf(p)
    ensures KeysOf(SavedProps(p, description, updates)) == KeysOf(p)
  {
    var named := if Truthy(Get(updates, "Name"))
                 then SetProp(p, "Name", Get(updates, "Name").value) else p;
    if Truthy(Get(updates, "Name")) {
      SetPropKeys(p, "Name", Get(updates, "Name").value);
    }
    SetPropKeys(named, "Description", description);
    AssignAllSameKeys(SetProp(named, "Description", description), updates);
  }

  /** Saving updates that agree with `p` everywhere except that key `k`
      now holds `v`, and that have no key `p` lacks, assigns `k` alone. */
  lemma SaveAssignsOne(p: Props, updates: Props, k: string, v: string)
    requires DistinctKeys(p) && DistinctKeys(updates) && "Description" in KeysOf(p)
    requires forall kk :: kk in KeysOf(updates) ==> kk in KeysOf(p) && kk != "Description"
    requires Get(updates, k) == Some(v)
    requires forall kk :: kk in KeysOf(updates) && kk != k ==> Get(updates, kk) == Get(p, kk)
    ensures SavedProps(p, DescriptionText(p), updates) == SetProp(p, k, v)
  {
    var d := DescriptionText(p);
    SavedPropsSameKeys(p, d, updates);
    SavedPropsDistinct(p, d, updates);
    SavedPropsSpec(p, d, updates);
    ReadsAsOneAssignment(p, updates, k, v, SavedProps(p, d, updates));
  }

  /** An object with the keys of `p` that reads like `p` after the save of
      `SaveAssignsOne` is `p` with the single assignment `p[k] = v`. */
  lemma ReadsAsOneAssignment(p: Props, updates: Props, k: string, v: string, s: Props)
    requires DistinctKeys(p) && "Description" in KeysOf(p)
    requires forall kk :: kk in KeysOf(updates) ==> kk in KeysOf(p) && kk != "Description"
    requires Get(updates, k) == Some(v)
    requires forall kk :: kk in KeysOf(updates) && kk != k ==> Get(updates, kk) == Get(p, kk)
    requires DistinctKeys(s) && KeysOf(s) == KeysOf(p)
    requires forall kk :: kk in KeysOf(updates) ==> Get(s, kk) == Get(updates, kk)
    requires Get(s, "Description") == Some(DescriptionText(p))
    requires forall kk :: kk !in KeysOf(updates) && kk != "Description" ==> Get(s, kk) == Get(p, kk)
    ensures s == SetProp(p, k, v)
  {
    var q := SetProp(p, k, v);
    assert k in KeysOf(updates);
    assert k in KeysOf(p) && k != "Description";
    SetPropGet(p, k, v);
    SetPropKeys(p, k, v);
    assert KeysOf(q) == KeysOf(p);
    forall kk ensures Get(s, kk) == Get(q, kk) {
      if kk == k {
        assert Get(s, kk) == Some(v);
      } else if kk in KeysOf(updates) {
        assert Get(s, kk) == Get(p, kk);
      } else if kk == "Description" {
        assert Get(q, kk) == Get(p, kk);
      } else {
        assert Get(s, kk) == Get(p, kk);
      }
    }
    PropsEqual(s, q);
  }

  /** Each row's field id decodes to the row's own key, so the decoded
      keys of the rows of `p` are distinct. */
  lemma RowsDecode(p: Props)
    requires DistinctKeys(p)
    ensures forall m :: 0 <= m < |Rows(p)| ==> KeyOfFieldId(Rows(p)[m].id) == Rows(p)[m].key
    ensures DistinctFieldKeys(Rows(p))
  {
    var rows := Rows(p);
    RowsSound(p);
    RowsOrdered(p);
    forall m | 0 <= m < |rows| ensures KeyOfFieldId(rows[m].id) == rows[m].key {
      assert rows[m] in rows;
      FieldIdRoundTrip(rows[m].key);
    }
    forall a, b | 0 <= a < b < |rows| ensures KeyOfFieldId(rows[a].id) != KeyOfFieldId(rows[b].id) {
      assert Pos(p, rows[a].key) < Pos(p, rows[b].key);
    }
  }

  /** Editing a value field leaves the ids, so the decoded keys stay the
      rows' own keys. */
  lemma EditedRowsDecode(p: Props, i: nat, v: string)
    requires DistinctKeys(p) && i < |Rows(p)|
    ensures var rows := Rows(p);
      var edited := rows[i := rows[i].(value := v)];
      && DistinctFieldKeys(edited)
      && forall m :: 0 <= m < |edited| ==> KeyOfFieldId(edited[m].id) == rows[m].key
  {
    var rows := Rows(p);
    var edited := rows[i := rows[i].(value := v)];
    RowsDecode(p);
    assert forall m :: 0 <= m < |rows| ==> edited[m].id == rows[m].id;
  }

  /** The updates built from the rows of `p` after row `i`'s value field is
      set to `v`: one entry per row, in row order, with `v` for row `i`. */
  lemma EditedUpdates(p: Props, i: nat, v: string)
    requires DistinctKeys(p) && i < |Rows(p)|
    ensures var rows := Rows(p);
      var u := UpdatesOf(rows[i := rows[i].(value := v)]);
      && DistinctKeys(u) && |u| == |rows|
      && (forall m :: 0 <= m < |u| ==> u[m] == Entry(rows[m].key, if m == i then v else rows[m].value))
  {
    EditedRowsDecode(p, i, v);
    EditedEntries(Rows(p), i, v);
  }

  /** `EditedUpdates` for any rows whose edited field ids decode to the
      rows' keys. */
  lemma EditedEntries(rows: seq<Row>, i: nat, v: string)
    requires i < |rows|
    requires var edited := rows[i := rows[i].(value := v)];
      && DistinctFieldKeys(edited)
      && forall m :: 0 <= m < |edited| ==> KeyOfFieldId(edited[m].id) == rows[m].key
    ensures var u := UpdatesOf(rows[i := rows[i].(value := v)]);
      && DistinctKeys(u) && |u| == |rows|
      && (forall m :: 0 <= m < |u| ==> u[m] == Entry(rows[m].key, if m == i then v else rows[m].value))
  {
    var edited := rows[i := rows[i].(value := v)];
    UpdatesOfEntries(edited);
    UpdatesOfDistinct(edited);
  }

  /** Entries that repeat the rows' stored values, except `v` for row `i`,
      read `v` under row `i`'s key and the stored value under every other key. */
  lemma EntriesAgree(p: Props, u: Props, rows: seq<Row>, i: nat, v: string)
    requires DistinctKeys(u) && |u| == |rows| && i < |rows|
    requires forall m :: 0 <= m < |u| ==> u[m] == Entry(rows[m].key, if m == i then v else rows[m].value)
    requires forall m :: 0 <= m < |rows| ==> Get(p, rows[m].key) == Some(rows[m].value)
    ensures Get(u, rows[i].key) == Some(v)
    ensures forall kk :: kk in KeysOf(u) && kk != rows[i].key ==> Get(u, kk) == Get(p, kk)
  {
    GetAt(u, i);
    forall kk | kk in KeysOf(u) && kk != rows[i].key ensures Get(u, kk) == Get(p, kk) {
      var m :| 0 <= m < |u| && KeysOf(u)[m] == kk;
      GetAt(u, m);
    }
  }

  /** Entries with the rows' keys have only keys of `p`, and no
      `Description`, when the rows have. */
  lemma EntryKeys(p: Props, u: Props, rows: seq<Row>)
    requires |u| == |rows|
    requires forall m :: 0 <= m < |u| ==> u[m].key == rows[m].key
    requires forall m :: 0 <= m < |rows| ==> rows[m].key in KeysOf(p) && rows[m].key != "Description"
    ensures forall kk :: kk in KeysOf(u) ==> kk in KeysOf(p) && kk != "Description"
  {
    forall kk | kk in KeysOf(u) ensures kk in KeysOf(p) && kk != "Description" {
      var m :| 0 <= m < |u| && KeysOf(u)[m] == kk;
      assert u[m].key == rows[m].key;
    }
  }

  /** Those updates read `v` under the edited row's key and the stored value
      under every other key they have, and have no key `p` lacks. */
  lemma EditedUpdatesAgree(p: Props, i: nat, v: string)
    requires DistinctKeys(p) && i < |Rows(p)|
    ensures var rows := Rows(p);
      var u := UpdatesOf(rows[i := rows[i].(value := v)]);
      && Get(u, rows[i].key) == Some(v)
      && (forall kk :: kk in KeysOf(u) && kk != rows[i].key ==> Get(u, kk) == Get(p, kk))
      && (forall kk :: kk in KeysOf(u) ==> kk in KeysOf(p) && kk != "Description")
  {
    var rows := Rows(p);
    EditedUpdates(p, i, v);
    RowsSoundAt(p);
    var u := UpdatesOf(rows[i := rows[i].(value := v)]);
    EntriesAgree(p, u, rows, i, v);
    EntryKeys(p, u, rows);
  }

  /** Editing the value field of one row and saving assigns that one key:
      every other property keeps its value and the key order is unchanged. */
  lemma SaveOfEditedValue(p: Props, i: nat, v: string)
    requires DistinctKeys(p) && "Description" in KeysOf(p) && i < |Rows(p)|
    ensures var rows := Rows(p);
      SavedProps(p, DescriptionText(p), UpdatesOf(rows[i := rows[i].(value := v)]))
        == SetProp(p, rows[i].key, v)
  {
    var rows := Rows(p);
    EditedUpdates(p, i, v);
    EditedUpdatesAgree(p, i, v);
    SaveAssignsOne(p, UpdatesOf(rows[i := rows[i].(value := v)]), rows[i].key, v);
  }

  /** The properties after the rename: only `Name` changes. */
  lemma RenameExampleProps()
    ensures var p := RenamePin();
      var rows := Rows(p);
      SavedProps(p, DescriptionText(p), UpdatesOf(rows[0 := rows[0].(value := "New")])) == RenamedPin()
  {
    var p := RenamePin();
    RenameExampleRows();
    assert Get(p, "Description") == Some("d");
    SaveOfEditedValue(p, 0, "New");
    RenameExampleNamed();
  }

  /** Renaming a pin: ID "5", Name "Old", Description "d", Canyon Region
      "North"; the Name field is changed to "New" and saved. The feature's
      Name becomes "New" and its popup shows "New" and "North". */
  lemma RenameExample()
    ensures var p := RenamePin();
      var rows := Rows(p);
      var edited := rows[0 := rows[0].(value := "New")];
      && |rows| == 2
      && SavePin(Pin(p, Some(LoadPopup(p))), Get(p, "ID"), DescriptionText(p), UpdatesOf(edited))
         == Pin(RenamedPin(), Some(NameLabel + "New" + LineBreak + SaveRegionLabel + "North"))
  {
    RenameExampleRows();
    RenameExampleProps();
    RenameExamplePopup();
  }

  // ---------------------------------------------------------------------
  // The edit/save button

  /** How a click handler run ends: `hremoveAttribute` is not a function,
      so calling it throws a TypeError. */
  datatype Outcome = Completed | Threw

  /** The Edit branch as written: the `forEach` throws on its first
      textarea, before the label is changed. */
  function EditBranchAsWritten(textareas: nat): (o: Outcome)
    ensures o == Threw <==> textareas > 0
  {
    if textareas == 0 then Completed else Threw
  }

  /** The label after one click, as written. */
  function ClickModeAsWritten(m: Mode, textareas: nat): (r: Mode)
    ensures r == ClickMode(m) <==> (m == Save || textareas == 0)
  {
    match m
    case Edit => if EditBranchAsWritten(textareas) == Threw then Edit else Save
    case Save => Edit
  }

  /** The label after one click, as intended: it alternates. */
  function ClickMode(m: Mode): (r: Mode)
    ensures r != m
  {
    match m
    case Edit => Save
    case Save => Edit
  }

  /** The label after a run of clicks, as written; `textareas[i]` is the
      number of textareas on the page at the i-th click. */
  function ModeAfterClicksAsWritten(m: Mode, textareas: seq<nat>): (r: Mode)
    decreases |textareas|
  {
    if textareas == [] then m
    else ModeAfterClicksAsWritten(ClickModeAsWritten(m, textareas[0]), textareas[1..])
  }

  function ModeAfterClicks(m: Mode, clicks: nat): (r: Mode)
    decreases clicks
  {
    if clicks == 0 then m else ModeAfterClicks(ClickMode(m), clicks - 1)
  }

  /** As written, once any textarea is on the page the label stays "Edit"
      however often the button is clicked, so the Save branch never runs. */
  lemma {:induction false} AsWrittenNeverSaves(textareas: seq<nat>)
    requires forall i :: 0 <= i < |textareas| ==> textareas[i] > 0
    ensures ModeAfterClicksAsWritten(Edit, textareas) == Edit
  {
    if textareas != [] {
      assert ClickModeAsWritten(Edit, textareas[0]) == Edit;
      AsWrittenNeverSaves(textareas[1..]);
    }
  }

  /** As intended, the label alternates: every second click saves. */
  lemma {:induction false} ClicksAlternate(clicks: nat)
    ensures ModeAfterClicks(Edit, clicks) == if clicks % 2 == 0 then Edit else Save
    ensures ModeAfterClicks(Save, clicks) == if clicks % 2 == 0 then Save else Edit
  {
    if clicks > 0 {
      ClicksAlternate(clicks - 1);
    }
  }

  // ---------------------------------------------------------------------
  // The page state

  class CanyonMap {
    /** The layers of the canyon-pins layer group. */
    const pins: array<Pin>
    /** The textareas of the page's description container. */
    const descriptionTextareas: nat
    /** `selectedFeatureId`: None for null, and for a pin without an `ID`. */
    var selectedId: Option<string>
    var mode: Mode
    // The detail panel's fields.
    var title: string
    var description: string
    var image: string
    var rows: seq<Row>
    var descriptionReadOnly: bool
    var rowsReadOnly: bool

    /** Every feature's properties form a JavaScript object. */
    ghost predicate Valid()
      reads this, pins
    {
      forall j :: 0 <= j < pins.Length ==> DistinctKeys(pins[j].props)
    }

    /** The textareas the Edit branch's selector finds: the description's
        and a key and a value field per row. */
    function TextareaCount(): (n: nat)
      reads this
      ensures n == 0 <==> descriptionTextareas == 0 && rows == []
    {
      descriptionTextareas + 2 * |rows|
    }

    /** The pins as loaded, before their popups are bound; the panel is
        empty and read-only and the button reads "Edit". The description
        field is one of the description container's textareas, so there is
        at least one. */
    constructor (loaded: seq<Props>, descriptionTextareas: nat)
      requires forall j :: 0 <= j < |loaded| ==> DistinctKeys(loaded[j])
      requires descriptionTextareas >= 1
      ensures Valid() && fresh(pins)
      ensures pins.Length == |loaded|
      ensures forall j :: 0 <= j < |loaded| ==> pins[j] == Pin(loaded[j], None)
      ensures this.descriptionTextareas == descriptionTextareas
      ensures TextareaCount() >= 1
      ensures selectedId == None && mode == Edit
      ensures title == "" && description == "" && image == "" && rows == []
      ensures descriptionReadOnly && rowsReadOnly
    {
      pins := new Pin[|loaded|](j requires 0 <= j < |loaded| => Pin(loaded[j], None));
      this.descriptionTextareas := descriptionTextareas;
      selectedId := None;
      mode := Edit;
      title, description, image, rows := "", "", "", [];
      descriptionReadOnly, rowsReadOnly := true, true;
    }

    /** The `eachLayer` callback of the `ready` handler applied to layer `j`. */
    method BindLayerAt(j: nat)
      requires Valid() && j < pins.Length
      modifies pins
      ensures Valid()
      ensures pins[..] == old(pins[..])[j := BindLoadPopup(old(pins[j]))]
    {
      var props := pins[j].props;
      pins[j] := Pin(props, Some(LoadPopup(props)));
    }

    /** The `ready` handler: bind the load-time popup to every pin. */
    method OnReady()
      requires Valid()
      modifies pins
      ensures Valid()
      ensures pins[..] == BoundLayers(old(pins[..]))
    {
      ghost var before := pins[..];
      ghost var after := BoundLayers(before);
      var j := 0;
      while j < pins.Length
        invariant 0 <= j <= pins.Length
        invariant forall k :: 0 <= k < j ==> pins[k] == after[k]
        invariant forall k :: j <= k < pins.Length ==> pins[k] == before[k]
        invariant Valid()
      {
        BoundLayersAt(before, j);
        BindLayerAt(j);
        j := j + 1;
      }
      assert pins[..] == after;
    }

    /** populateCanyonSidebar: fill the panel from `p`; the new rows are
        read-only, the description field keeps its read-only state. */
    method Populate(p: Props)
      modifies this
      ensures title == TitleText(p) && description == DescriptionText(p) && image == ImageSource(p)
      ensures rows == Rows(p) && rowsReadOnly
      ensures descriptionReadOnly == old(descriptionReadOnly)
      ensures selectedId == old(selectedId) && mode == old(mode)
    {
      title := TitleText(p);
      description := DescriptionText(p);
      image := ImageSource(p);
      rows := PopulateRows(p);
      rowsReadOnly := true;
    }

    /** onCanyonClick: select the pin's `ID` and show the pin in the panel. */
    method OnCanyonClick(j: nat)
      requires Valid() && j < pins.Length
      modifies this
      ensures Valid()
      ensures selectedId == Get(pins[j].props, "ID")
      ensures title == TitleText(pins[j].props) && description == DescriptionText(pins[j].props)
      ensures image == ImageSource(pins[j].props)
      ensures rows == Rows(pins[j].props) && rowsReadOnly
      ensures descriptionReadOnly == old(descriptionReadOnly) && mode == old(mode)
    {
      selectedId := Get(pins[j].props, "ID");
      Populate(pins[j].props);
    }

    /** The user types into the description field; a read-only field
        ignores it. */
    method TypeDescription(text: string)
      modifies this`description
      ensures description == if descriptionReadOnly then old(description) else text
    {
      if !descriptionReadOnly {
        description := text;
      }
    }

    /** The user types into the value field of row `i`. */
    method TypeValue(i: nat, text: string)
      requires i < |rows|
      modifies this`rows
      ensures rows == if rowsReadOnly then old(rows) else old(rows)[i := old(rows)[i].(value := text)]
    {
      if !rowsReadOnly {
        rows := rows[i := rows[i].(value := text)];
      }
    }

    /** The `eachLayer` callback applied to layer `j`. */
    method SaveLayerAt(j: nat, desc: string, updates: Props)
      requires Valid() && j < pins.Length
      modifies pins
      ensures Valid()
      ensures pins[..] == old(pins[..])[j := SavePin(old(pins[j]), selectedId, desc, updates)]
    {
      var pin := SaveLayer(pins[j], selectedId, desc, updates);
      pins[j] := pin;
    }

    /** The loop over the pin layers: every pin whose `ID` equals the
        selection gets the saved properties and a rebuilt popup. */
    method SaveToPins(desc: string, updates: Props)
      requires Valid()
      modifies pins
      ensures Valid()
      ensures pins[..] == SavedLayers(old(pins[..]), selectedId, desc, updates)
    {
      ghost var before := pins[..];
      ghost var after := SavedLayers(before, selectedId, desc, updates);
      var j := 0;
      while j < pins.Length
        invariant 0 <= j <= pins.Length
        invariant forall k :: 0 <= k < j ==> pins[k] == after[k]
        invariant forall k :: j <= k < pins.Length ==> pins[k] == before[k]
        invariant Valid()
      {
        SavedLayersAt(before, selectedId, desc, updates, j);
        SaveLayerAt(j, desc, updates);
        j := j + 1;
      }
      assert pins[..] == after;
    }

    /** The button's click handler as intended: "Edit" unlocks the fields,
        "Save" locks them and writes the panel's values into the pins whose
        `ID` matches the selection. */
    method Click()
      requires Valid()
      modifies this, pins
      ensures Valid()
      ensures mode == ClickMode(old(mode))
      ensures descriptionReadOnly == (old(mode) == Save) && rowsReadOnly == (old(mode) == Save)
      ensures selectedId == old(selectedId) && rows == old(rows) && description == old(description)
      ensures title == old(title) && image == old(image)
      ensures old(mode) == Edit ==> pins[..] == old(pins[..])
      ensures old(mode) == Save ==>
        pins[..] == SavedLayers(old(pins[..]), old(selectedId), old(description), UpdatesOf(old(rows)))
    {
      if mode == Edit {
        descriptionReadOnly, rowsReadOnly := false, false;
        mode := Save;
      } else {
        descriptionReadOnly, rowsReadOnly := true, true;
        mode := Edit;
        var updates := CollectUpdates(rows);
        SaveToPins(description, updates);
      }
    }

    /** The click handler as written: in Edit mode it throws on the first
        textarea and changes nothing; only with no textarea at all does the
        label flip. */
    method ClickAsWritten() returns (outcome: Outcome)
      requires Valid()
      modifies this, pins
      ensures Valid()
      ensures mode == ClickModeAsWritten(old(mode), old(TextareaCount()))
      ensures old(mode) == Edit ==> outcome == EditBranchAsWritten(old(TextareaCount()))
      ensures old(mode) == Edit ==>
        && selectedId == old(selectedId) && rows == old(rows) && description == old(description)
        && title == old(title) && image == old(image)
        && descriptionReadOnly == old(descriptionReadOnly) && rowsReadOnly == old(rowsReadOnly)
        && pins[..] == old(pins[..])
      ensures old(mode) == Save ==> outcome == Completed
      ensures old(mode) == Save ==>
        && descriptionReadOnly && rowsReadOnly
        && selectedId == old(selectedId) && rows == old(rows) && description == old(description)
        && title == old(title) && image == old(image)
      ensures old(mode) == Save ==>
        pins[..] == SavedLayers(old(pins[..]), old(selectedId), old(description), UpdatesOf(old(rows)))
    {
      if mode == Edit {
        outcome := EditBranchAsWritten(TextareaCount());
        if outcome == Completed {
          mode := Save;
        }
      } else {
        Click();
        outcome := Completed;
      }
    }
  }

  /** Selecting pin `j` and clicking Edit: the panel shows the pin,
      unlocked, and no pin changes. */
  method SelectAndEdit(m: CanyonMap, j: nat)
    requires m.Valid() && j < m.pins.Length && m.mode == Edit
    modifies m, m.pins
    ensures m.Valid() && m.mode == Save
    ensures m.pins[..] == old(m.pins[..])
    ensures m.selectedId == Get(m.pins[j].props, "ID")
    ensures m.title == TitleText(m.pins[j].props) && m.image == ImageSource(m.pins[j].props)
    ensures m.description == DescriptionText(m.pins[j].props) && m.rows == Rows(m.pins[j].props)
    ensures !m.descriptionReadOnly && !m.rowsReadOnly
  {
    m.OnCanyonClick(j);
    m.Click();
  }

  /** Saving the panel as it was populated from layer `j` rebinds that
      layer's popup and keeps its properties, when it has a `Description`. */
  lemma PopulatedSaveLayer(pins: seq<Pin>, j: nat)
    requires j < |pins| && DistinctKeys(pins[j].props) && "Description" in KeysOf(pins[j].props)
    ensures var p := pins[j].props;
      SavedLayers(pins, Get(p, "ID"), DescriptionText(p), UpdatesOf(Rows(p)))[j]
        == Pin(p, Some(SavePopup(p)))
  {
    var p := pins[j].props;
    SavedLayersAt(pins, Get(p, "ID"), DescriptionText(p), UpdatesOf(Rows(p)), j);
    PopulatedSaveChangesNothing(p);
  }

  /** Selecting a pin, clicking Edit and then Save without typing leaves
      the pin's properties as they were when it has a `Description`; a pin
      whose `ID` differs is not touched at all. */
  method SelectEditSave(m: CanyonMap, j: nat)
    requires m.Valid() && j < m.pins.Length && m.mode == Edit
    requires "Description" in KeysOf(m.pins[j].props)
    modifies m, m.pins
    ensures m.Valid() && m.mode == Edit
    ensures m.pins[j] == Pin(old(m.pins[j].props), Some(SavePopup(old(m.pins[j].props))))
    ensures forall k :: 0 <= k < m.pins.Length && Get(old(m.pins[k].props), "ID") != Get(old(m.pins[j].props), "ID")
              ==> m.pins[k] == old(m.pins[k])
  {
    ghost var before := m.pins[..];
    SelectAndEdit(m, j);
    m.Click();
    PopulatedSaveLayer(before, j);
    SavedLayersOthers(before, m.selectedId, m.description, UpdatesOf(m.rows));
  }
}
