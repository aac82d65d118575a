/** What the detail panel shows for a clicked pin: its title, description
    and image, and one attribute row per remaining property, whose value
    field carries an id that encodes the property's key. */
module Sidebar {
  import opened Properties

  const FieldIdPrefix: string := "attr-value-"
  const UnknownCanyon: string := "Unknown Canyon"
  const PlaceholderImage: string := "placeholder.jpg"

  /** Keys shown in the panel's own fields, not as attribute rows. */
  predicate Reserved(key: string) {
    key == "Description" || key == "Image" || key == "ID"
  }

  // ---------------------------------------------------------------------
  // Value-field ids

  /** The selector `[id^="attr-value-"]`. */
  predicate HasFieldIdPrefix(id: string) {
    FieldIdPrefix <= id
  }

  /** `attr-value-${key}`, the id of a row's value field. */
  function FieldId(key: string): (id: string)
    ensures HasFieldIdPrefix(id)
    ensures |id| == |FieldIdPrefix| + |key|
  {
    FieldIdPrefix + key
  }

  /** `id.substring("attr-value-".length)`; JavaScript clamps the start
      index to the string's length. */
  function KeyOfFieldId(id: string): (key: string)
    ensures |key| == if |id| >= |FieldIdPrefix| then |id| - |FieldIdPrefix| else 0
  {
    if |id| >= |FieldIdPrefix| then id[|FieldIdPrefix|..] else ""
  }

  /** Stripping the prefix recovers the key the id was made from. */
  lemma FieldIdRoundTrip(key: string)
    ensures KeyOfFieldId(FieldId(key)) == key
  {
  }

  /** Every id the selector picks up is the id of the key it decodes to. */
  lemma FieldIdFromKey(id: string)
    requires HasFieldIdPrefix(id)
    ensures FieldId(KeyOfFieldId(id)) == id
  {
  }

  /** Distinct keys get distinct ids. */
  lemma FieldIdInjective(k1: string, k2: string)
    requires FieldId(k1) == FieldId(k2)
    ensures k1 == k2
  {
    FieldIdRoundTrip(k1);
    FieldIdRoundTrip(k2);
  }

  // ---------------------------------------------------------------------
  // Attribute rows

  /** A table row: the key cell, the value field's text and its id. */
  datatype Row = Row(key: string, value: string, id: string)

  /** The row made for one entry: its value field's id decodes to the
      entry's key. */
  function RowFor(e: Entry): (r: Row)
    ensures r.key == e.key && r.value == e.value && KeyOfFieldId(r.id) == e.key
  {
    Row(e.key, e.value, FieldId(e.key))
  }

  function RowKeys(rows: seq<Row>): (ks: seq<string>)
    ensures |ks| == |rows|
  {
    seq(|rows|, i requires 0 <= i < |rows| => rows[i].key)
  }

  /** The rows the panel shows for `p`, as a definition by recursion. */
  function Rows(p: Props): (rows: seq<Row>)
  {
    if p == [] then []
    else (if Reserved(p[0].key) then [] else [RowFor(p[0])]) + Rows(p[1..])
  }

  lemma {:induction false} RowsConcat(a: Props, b: Props)
    ensures Rows(a + b) == Rows(a) + Rows(b)
  {
    if a == [] {
      assert a + b == b;
    } else {
      assert (a + b)[0] == a[0];
      assert (a + b)[1..] == a[1..] + b;
      RowsConcat(a[1..], b);
    }
  }

  /** The loop of populateCanyonSidebar over the own keys of `p`. */
  method PopulateRows(p: Props) returns (rows: seq<Row>)
    ensures rows == Rows(p)
  {
    rows := [];
    var i := 0;
    while i < |p|
      invariant 0 <= i <= |p|
      invariant rows == Rows(p[..i])
    {
      assert p[..i + 1] == p[..i] + [p[i]];
      RowsConcat(p[..i], [p[i]]);
      var key := p[i].key;
      if !Reserved(key) {
        rows := rows + [RowFor(p[i])];
      }
      i := i + 1;
    }
    assert p[..i] == p;
  }

  /** Index of the first entry with key `k`; `|p|` when there is none. */
  function Pos(p: Props, k: string): (i: nat) {
    if p == [] then 0
    else if p[0].key == k then 0 else 1 + Pos(p[1..], k)
  }

  /** `Pos` finds the first entry with the key, and runs off the end exactly
      when the key is absent. */
  lemma {:induction false} PosSpec(p: Props, k: string)
    ensures Pos(p, k) <= |p|
    ensures Pos(p, k) < |p| <==> k in KeysOf(p)
    ensures Pos(p, k) < |p| ==> p[Pos(p, k)].key == k
    ensures forall j :: 0 <= j < Pos(p, k) ==> p[j].key != k
  {
    if p != [] {
      assert KeysOf(p) == [p[0].key] + KeysOf(p[1..]);
      if p[0].key != k {
        PosSpec(p[1..], k);
        assert forall j :: 1 <= j < |p| ==> p[j] == p[1..][j - 1];
      }
    }
  }

  /** Every row shows a non-reserved property of `p` with its value and the
      id made from its key. */
  lemma {:induction false} RowsSound(p: Props)
    requires DistinctKeys(p)
    ensures forall r :: r in Rows(p) ==>
      r.key in KeysOf(p) && !Reserved(r.key) && Get(p, r.key) == Some(r.value) && r.id == FieldId(r.key)
  {
    if p != [] {
      TailDistinct(p);
      RowsSound(p[1..]);
    }
  }

  /** `RowsSound` row by row. */
  lemma RowsSoundAt(p: Props)
    requires DistinctKeys(p)
    ensures forall m :: 0 <= m < |Rows(p)| ==>
      && Rows(p)[m].key in KeysOf(p) && !Reserved(Rows(p)[m].key)
      && Get(p, Rows(p)[m].key) == Some(Rows(p)[m].value)
  {
    RowsSound(p);
    forall m | 0 <= m < |Rows(p)| ensures Rows(p)[m] in Rows(p) {
    }
  }

  /** A row of the tail sits one place further on in `p`. */
  lemma PosShift(p: Props)
    requires DistinctKeys(p) && p != []
    ensures forall i :: 0 <= i < |Rows(p[1..])| ==>
      Pos(p, Rows(p[1..])[i].key) == 1 + Pos(p[1..], Rows(p[1..])[i].key)
  {
    TailDistinct(p);
    RowsSoundAt(p[1..]);
  }

  /** Rows in key order for the tail stay in key order for `p`, whether or
      not the first entry gets a row. */
  lemma OrderedStep(p: Props)
    requires DistinctKeys(p) && p != []
    requires forall i, j :: 0 <= i < j < |Rows(p[1..])| ==>
      Pos(p[1..], Rows(p[1..])[i].key) < Pos(p[1..], Rows(p[1..])[j].key)
    ensures forall i, j :: 0 <= i < j < |Rows(p)| ==>
      Pos(p, Rows(p)[i].key) < Pos(p, Rows(p)[j].key)
  {
    PosShift(p);
    var t := Rows(p[1..]);
    if Reserved(p[0].key) {
      OrderedSkip(p, t);
    } else {
      OrderedCons(p, t);
    }
  }

  lemma OrderedSkip(p: Props, t: seq<Row>)
    requires p != [] && Reserved(p[0].key) && t == Rows(p[1..])
    requires forall i, j :: 0 <= i < j < |t| ==> Pos(p[1..], t[i].key) < Pos(p[1..], t[j].key)
    requires forall i :: 0 <= i < |t| ==> Pos(p, t[i].key) == 1 + Pos(p[1..], t[i].key)
    ensures forall i, j :: 0 <= i < j < |Rows(p)| ==>
      Pos(p, Rows(p)[i].key) < Pos(p, Rows(p)[j].key)
  {
    assert Rows(p) == t;
  }

  lemma OrderedCons(p: Props, t: seq<Row>)
    requires p != [] && !Reserved(p[0].key) && t == Rows(p[1..])
    requires forall i, j :: 0 <= i < j < |t| ==> Pos(p[1..], t[i].key) < Pos(p[1..], t[j].key)
    requires forall i :: 0 <= i < |t| ==> Pos(p, t[i].key) == 1 + Pos(p[1..], t[i].key)
    ensures forall i, j :: 0 <= i < j < |Rows(p)| ==>
      Pos(p, Rows(p)[i].key) < Pos(p, Rows(p)[j].key)
  {
    var rows := Rows(p);
    assert rows == [RowFor(p[0])] + t;
    forall i, j | 0 <= i < j < |rows| ensures Pos(p, rows[i].key) < Pos(p, rows[j].key) {
      assert rows[j] == t[j - 1];
      if i > 0 {
        assert rows[i] == t[i - 1];
      }
    }
  }

  /** The rows follow the object's key order, one row per key. */
  lemma {:induction false} RowsOrdered(p: Props)
    requires DistinctKeys(p)
    ensures forall i, j :: 0 <= i < j < |Rows(p)| ==>
      Pos(p, Rows(p)[i].key) < Pos(p, Rows(p)[j].key)
  {
    if p != [] {
      TailDistinct(p);
      RowsOrdered(p[1..]);
      OrderedStep(p);
    }
  }

  /** Every non-reserved key gets a row. */
  lemma {:induction false} RowsComplete(p: Props)
    requires DistinctKeys(p)
    ensures forall k :: k in KeysOf(p) && !Reserved(k) ==> k in RowKeys(Rows(p))
  {
    if p != [] {
      var tail, k0 := p[1..], p[0].key;
      TailDistinct(p);
      RowsComplete(tail);
      var t, rows := Rows(tail), Rows(p);
      var off := if Reserved(k0) then 0 else 1;
      assert rows == (if Reserved(k0) then [] else [RowFor(p[0])]) + t;
      forall k | k in KeysOf(p) && !Reserved(k) ensures k in RowKeys(rows) {
        if k == k0 {
          assert RowKeys(rows)[0] == k;
        } else {
          assert k in RowKeys(t);
          var i :| 0 <= i < |t| && RowKeys(t)[i] == k;
          assert rows[i + off] == t[i];
          assert RowKeys(rows)[i + off] == k;
        }
      }
    }
  }

  /** `Name` and `Canyon Region` are not reserved, so they always get rows. */
  lemma NameAndRegionGetRows(p: Props)
    requires DistinctKeys(p)
    ensures "Name" in KeysOf(p) ==> "Name" in RowKeys(Rows(p))
    ensures "Canyon Region" in KeysOf(p) ==> "Canyon Region" in RowKeys(Rows(p))
    ensures "ID" !in RowKeys(Rows(p)) && "Description" !in RowKeys(Rows(p)) && "Image" !in RowKeys(Rows(p))
  {
    RowsSound(p);
    RowsComplete(p);
    forall k | k in RowKeys(Rows(p)) ensures !Reserved(k) {
      var i :| 0 <= i < |Rows(p)| && RowKeys(Rows(p))[i] == k;
      assert Rows(p)[i] in Rows(p);
    }
  }

  /** A pin with an extra `Difficulty` column gets a row for it and none for
      `ID`, `Description` or `Image`. */
  lemma DifficultyExample()
    ensures Rows([Entry("ID", "5"), Entry("Name", "Old"), Entry("Description", "d"),
                  Entry("Image", "i.jpg"), Entry("Canyon Region", "North"),
                  Entry("Difficulty", "Hard")])
         == [Row("Name", "Old", FieldId("Name")),
             Row("Canyon Region", "North", FieldId("Canyon Region")),
             Row("Difficulty", "Hard", FieldId("Difficulty"))]
  {
    var p := [Entry("ID", "5"), Entry("Name", "Old"), Entry("Description", "d"),
              Entry("Image", "i.jpg"), Entry("Canyon Region", "North"),
              Entry("Difficulty", "Hard")];
    assert Rows(p[6..]) == [];
    assert Rows(p[5..]) == [Row("Difficulty", "Hard", FieldId("Difficulty"))];
    assert Rows(p[4..]) == [Row("Canyon Region", "North", FieldId("Canyon Region"))] + Rows(p[5..]);
    assert Rows(p[3..]) == Rows(p[4..]);
    assert Rows(p[2..]) == Rows(p[3..]);
    assert Rows(p[1..]) == [Row("Name", "Old", FieldId("Name"))] + Rows(p[2..]);
  }

  // ---------------------------------------------------------------------
  // The panel's own fields

  /** The title: `Name`, or "Unknown Canyon" when it is missing or empty. */
  function TitleText(p: Props): (t: string)
    ensures t != ""
    ensures Truthy(Get(p, "Name")) ==> t == Get(p, "Name").value
    ensures !Truthy(Get(p, "Name")) ==> t == UnknownCanyon
  {
    OrDefault(Get(p, "Name"), UnknownCanyon)
  }

  /** The description field's text: whatever is stored under `Description`
      (even ""), and "" when nothing is. */
  function DescriptionText(p: Props): (t: string)
    ensures Get(p, "Description").Some? ==> t == Get(p, "Description").value
    ensures Get(p, "Description").None? ==> t == ""
  {
    OrDefault(Get(p, "Description"), "")
  }

  /** The image source: `Image`, or the placeholder when missing or empty. */
  function ImageSource(p: Props): (s: string)
    ensures s != ""
    ensures Truthy(Get(p, "Image")) ==> s == Get(p, "Image").value
    ensures !Truthy(Get(p, "Image")) ==> s == PlaceholderImage
  {
    OrDefault(Get(p, "Image"), PlaceholderImage)
  }
}
