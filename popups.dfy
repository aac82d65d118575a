/** The popup summary bound to each pin: its name and region, with "N/A"
    for a missing or empty value. The text bound once the pins have loaded
    labels the region "Region:"; the text rebuilt after a save labels it
    "Canyon Region:". */
module Popups {
  import opened Properties

  const NotAvailable: string := "N/A"
  const NameLabel: string := "<strong>Name:</strong> "
  const LoadRegionLabel: string := "<strong>Region:</strong> "
  const SaveRegionLabel: string := "<strong>Canyon Region:</strong> "
  const LineBreak: string := "<br>"

  /** `props.Name || "N/A"` */
  function NameText(p: Props): (t: string)
    ensures t != ""
    ensures Truthy(Get(p, "Name")) ==> t == Get(p, "Name").value
    ensures !Truthy(Get(p, "Name")) ==> t == NotAvailable
  {
    OrDefault(Get(p, "Name"), NotAvailable)
  }

  /** `props["Canyon Region"] || "N/A"` */
  function RegionText(p: Props): (t: string)
    ensures t != ""
    ensures Truthy(Get(p, "Canyon Region")) ==> t == Get(p, "Canyon Region").value
    ensures !Truthy(Get(p, "Canyon Region")) ==> t == NotAvailable
  {
    OrDefault(Get(p, "Canyon Region"), NotAvailable)
  }

  /** The two lines joined with "<br>", as bound when the pins are ready. */
  function LoadPopup(p: Props): (s: string)
  {
    (NameLabel + NameText(p)) + LineBreak + (LoadRegionLabel + RegionText(p))
  }

  /** The text a save binds to a matching pin. */
  function SavePopup(p: Props): (s: string)
  {
    NameLabel + NameText(p) + LineBreak + SaveRegionLabel + RegionText(p)
  }

  /** `t` occurs in `s` starting at index `i`. */
  predicate OccursAt(s: string, t: string, i: nat) {
    i + |t| <= |s| && s[i..i + |t|] == t
  }

  ghost predicate Contains(s: string, t: string) {
    exists i: nat :: OccursAt(s, t, i)
  }

  /** Both popups show the name and the region text. */
  lemma LoadPopupShowsNameAndRegion(p: Props)
    ensures Contains(LoadPopup(p), NameText(p)) && Contains(LoadPopup(p), RegionText(p))
  {
    var n, r, load := NameText(p), RegionText(p), LoadPopup(p);
    assert OccursAt(load, n, |NameLabel|);
    assert OccursAt(load, r, |load| - |r|);
  }

  lemma SavePopupShowsNameAndRegion(p: Props)
    ensures Contains(SavePopup(p), NameText(p)) && Contains(SavePopup(p), RegionText(p))
  {
    var n, r, save := NameText(p), RegionText(p), SavePopup(p);
    assert OccursAt(save, n, |NameLabel|);
    assert OccursAt(save, r, |save| - |r|);
  }

  /** A popup depends on `Name` and `Canyon Region` alone. */
  lemma PopupsDependOnNameAndRegionOnly(p: Props, q: Props)
    requires Get(p, "Name") == Get(q, "Name")
    requires Get(p, "Canyon Region") == Get(q, "Canyon Region")
    ensures LoadPopup(p) == LoadPopup(q) && SavePopup(p) == SavePopup(q)
  {
  }

  /** A save always changes a pin's popup text, even when no value changed:
      the rebuilt text is seven characters ("Canyon ") longer. */
  lemma SavePopupDiffersFromLoadPopup(p: Props)
    ensures |SavePopup(p)| == |LoadPopup(p)| + 7
    ensures SavePopup(p) != LoadPopup(p)
  {
  }
}
