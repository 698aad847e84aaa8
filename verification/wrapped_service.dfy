/** The "wrapped" summary of backend/services/wrapped_service.py: how many scans a user made,
    how many distinct landmarks they cover, their most visited city and one item per scan.
    The two database reads are arguments: `scans` is what `get_scans_for_user` hands back (it
    answers [] when its query fails), `cityRows` the city query, whose `Err` arm is a raised
    exception. */
module WrappedService {
  import opened Wrappers
  import opened Text
  import opened Seqs
  import Queries

  datatype WrappedScanItem = WrappedScanItem(landmarkName: string, tags: seq<string>, timestamp: Option<string>)

  datatype WrappedResponse = WrappedResponse(
    totalScans: nat,
    uniqueLandmarks: nat,
    topCity: Option<string>,
    items: seq<WrappedScanItem>)

  /** A landmark name as uniqueness counting sees it: trimmed and lower-cased, with the
      recogniser's "unknown" and "uncertain" answers (and missing names) counted as no name. */
  function NormLandmark(name: Option<string>): (r: string)
    ensures r == "" <==> !Truthy(name) || StripLower(name.value) in ["", "unknown", "uncertain"]
    ensures r != "" ==> r == StripLower(name.value) && IsCanonical(r)
  {
    if !Truthy(name) then ""
    else
      var t := StripLower(name.value);
      StripLowerCanonical(name.value);
      if t == "unknown" || t == "uncertain" then "" else t
  }

  /** Normalising a normalised name changes nothing. */
  lemma NormLandmarkIdempotent(name: Option<string>)
    ensures NormLandmark(Some(NormLandmark(name))) == NormLandmark(name)
  {
    var r := NormLandmark(name);
    if r != "" {
      StripLowerOfCanonical(r);
    }
  }

  /** Names differing only in surrounding whitespace or letter case count as one landmark. */
  lemma NormLandmarkIgnoresCaseAndSpace(a: string, b: string)
    requires StripLower(a) == StripLower(b)
    ensures NormLandmark(Some(a)) == NormLandmark(Some(b))
  {
    if a == "" && b != "" {
      assert StripLower(b) == "";
    }
    if b == "" && a != "" {
      assert StripLower(a) == "";
    }
  }

  /** The normalised name of a scan. */
  function ScanKey(scan: Queries.ScanRow): string {
    NormLandmark(scan.landmarkName)
  }

  /** The distinct non-empty names of a list. */
  ghost function NonEmptyNames(names: seq<string>): set<string> {
    set x | x in names && x != ""
  }

  lemma NonEmptyNamesAppend(names: seq<string>, k: string)
    ensures NonEmptyNames(names + [k]) == NonEmptyNames(names) + (if k != "" then {k} else {})
  {
    forall x ensures x in NonEmptyNames(names + [k]) <==> x in NonEmptyNames(names) + (if k != "" then {k} else {}) {
      assert x in names + [k] <==> x in names || x == k;
    }
  }

  /** A list never holds more distinct non-empty names than items. */
  lemma {:induction false} NonEmptyNamesBound(names: seq<string>)
    ensures |NonEmptyNames(names)| <= |names|
  {
    if names != [] {
      var init, last := names[..|names| - 1], names[|names| - 1];
      assert names == init + [last];
      NonEmptyNamesBound(init);
      NonEmptyNamesAppend(init, last);
      var prev := NonEmptyNames(init);
      if last != "" {
        assert |prev + {last}| <= |prev| + 1;
      }
    }
  }

  /** The distinct non-empty normalised names among the scans. */
  ghost function UniqueNames(scans: seq<Queries.ScanRow>): set<string> {
    NonEmptyNames(Map(scans, ScanKey))
  }

  lemma UniqueNamesStep(scans: seq<Queries.ScanRow>, i: nat)
    requires i < |scans|
    ensures var key := NormLandmark(scans[i].landmarkName);
      UniqueNames(scans[..i + 1]) == UniqueNames(scans[..i]) + (if key != "" then {key} else {})
  {
    MapStep(scans, i, ScanKey);
    NonEmptyNamesAppend(Map(scans[..i], ScanKey), ScanKey(scans[i]));
  }

  /** There are never more distinct landmarks than scans. */
  lemma UniqueNamesBound(scans: seq<Queries.ScanRow>)
    ensures |UniqueNames(scans)| <= |scans|
  {
    NonEmptyNamesBound(Map(scans, ScanKey));
  }

  /** The item shown for one scan: its name, or "Unknown" when it has none; its tags when they
      are a list, [] otherwise. */
  function ItemOf(scan: Queries.ScanRow): (item: WrappedScanItem)
    ensures !Truthy(scan.landmarkName) ==> item.landmarkName == "Unknown"
    ensures Truthy(scan.landmarkName) ==> item.landmarkName == scan.landmarkName.value
    ensures scan.tags.TagList? ==> item.tags == scan.tags.items
    ensures !scan.tags.TagList? ==> item.tags == []
    ensures item.timestamp == scan.timestamp
  {
    WrappedScanItem(
      if Truthy(scan.landmarkName) then scan.landmarkName.value else "Unknown",
      if scan.tags.TagList? then scan.tags.items else [],
      scan.timestamp)
  }

  /** `build_wrapped`: one item per scan in scan order, the scan total, the number of distinct
      normalised names (never more than the total) and the most common city. */
  method BuildWrapped(scans: seq<Queries.ScanRow>, cityRows: Result<seq<Option<string>>, string>)
    returns (r: WrappedResponse)
    ensures r.totalScans == |scans|
    ensures r.uniqueLandmarks == |UniqueNames(scans)|
    ensures r.uniqueLandmarks <= r.totalScans
    ensures r.topCity == Queries.TopCity(cityRows)
    ensures |r.items| == |scans|
    ensures forall i :: 0 <= i < |scans| ==> r.items[i] == ItemOf(scans[i])
  {
    var items: seq<WrappedScanItem> := [];
    var unique: set<string> := {};
    for i := 0 to |scans|
      invariant unique == UniqueNames(scans[..i])
      invariant items == Map(scans[..i], ItemOf)
    {
      var key := NormLandmark(scans[i].landmarkName);
      assert UniqueNames(scans[..i + 1]) == unique + (if key != "" then {key} else {}) by {
        UniqueNamesStep(scans, i);
      }
      assert Map(scans[..i + 1], ItemOf) == items + [ItemOf(scans[i])] by {
        MapStep(scans, i, ItemOf);
      }
      if key != "" {
        unique := unique + {key};
      }
      items := items + [ItemOf(scans[i])];
    }
    assert scans[..|scans|] == scans;
    assert |unique| <= |scans| by {
      UniqueNamesBound(scans);
    }
    var topCity := Queries.TopCity(cityRows);
    return WrappedResponse(|scans|, |unique|, topCity, items);
  }
}
