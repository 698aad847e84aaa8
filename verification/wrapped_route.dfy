/** The `GET /wrapped/{user_id}` handler of backend/routes/wrapped.py: the user's recent scans
    and up to six "cities", which stand for the first tags of the scans, each with a colour.
    The database read is the `scans` argument: what `get_scans_for_user` hands back, which is
    [] when its query fails. */
module WrappedRoute {
  import opened Wrappers
  import opened Text
  import opened Seqs
  import opened Queries

  datatype RecentScan = RecentScan(
    id: Option<string>,
    landmarkName: Option<string>,
    timestamp: Option<string>,
    imageUrl: Option<string>,
    category: string)

  datatype CityCard = CityCard(name: string, colorHex: string, count: nat)

  datatype WrappedView = WrappedView(cities: seq<CityCard>, recentScans: seq<RecentScan>)

  const Palette: seq<string> := ["#7ADBCF", "#F05B55", "#1F8A70", "#B8F3EA", "#F4B7B2", "#A7F3D0"]

  /** The category shown for a scan: its tags joined with ", " when they are a list, the text
      itself when they are a string, "" when there are none. */
  function CategoryOf(tags: TagsValue): (r: string)
    ensures tags.TagList? ==> r == Join(tags.items, ", ")
    ensures tags.TagText? ==> r == tags.text
    ensures tags.NoTags? ==> r == ""
    ensures tags.TagList? && tags.items == [] ==> r == ""
    ensures tags.TagList? && |tags.items| == 1 ==> r == tags.items[0]
    ensures tags.TagList? && ',' !in r ==> forall t :: t in tags.items ==> ',' !in t
  {
    match tags
    case TagList(items) =>
      JoinNoChar(items, ", ", ',');
      Join(items, ", ")
    case TagText(text) => text
    case NoTags => ""
  }

  /** A category made from a non-empty list of comma-free tags splits back into those tags. */
  lemma CategoryRoundTrip(items: seq<string>)
    requires items != []
    requires forall t :: t in items ==> ',' !in t
    ensures Split(CategoryOf(TagList(items)), ", ") == items
  {
    SplitJoin(items, ", ");
  }

  /** A joined list holds a character only when a part or the separator does. */
  lemma {:induction false} JoinNoChar(parts: seq<string>, sep: string, c: char)
    ensures c !in Join(parts, sep) ==> forall t :: t in parts ==> c !in t
  {
    if |parts| > 1 {
      JoinNoChar(parts[1..], sep, c);
    }
  }

  function RecentScanOf(scan: ScanRow): RecentScan {
    RecentScan(scan.id, scan.landmarkName, scan.timestamp, scan.imageUrl, CategoryOf(scan.tags))
  }

  // ---------------------------------------------------------------------------------------------
  // Buckets

  /** The bucket a scan counts towards: its first tag, or "Landmarks" without a tag list. */
  function BucketKey(scan: ScanRow): (k: string)
    ensures scan.tags.TagList? && scan.tags.items != [] ==> k == scan.tags.items[0]
    ensures !(scan.tags.TagList? && scan.tags.items != []) ==> k == "Landmarks"
  {
    if scan.tags.TagList? && scan.tags.items != [] then scan.tags.items[0] else "Landmarks"
  }

  /** The sum of the counts of `keys`. */
  function Total(keys: seq<string>, counts: map<string, nat>): nat
    requires forall k :: k in keys ==> k in counts
  {
    if keys == [] then 0 else Total(keys[..|keys| - 1], counts) + counts[keys[|keys| - 1]]
  }

  /** Changing the count of a key outside `keys` leaves their sum alone. */
  lemma {:induction false} TotalOther(keys: seq<string>, counts: map<string, nat>, k: string, v: nat)
    requires forall x :: x in keys ==> x in counts
    requires k !in keys
    ensures Total(keys, counts[k := v]) == Total(keys, counts)
  {
    if keys != [] {
      var init := keys[..|keys| - 1];
      assert forall x :: x in init ==> x in keys;
      TotalOther(init, counts, k, v);
    }
  }

  /** Raising one count of a duplicate-free key list by one raises the sum by one. */
  lemma {:induction false} TotalBump(keys: seq<string>, counts: map<string, nat>, k: string)
    requires forall x :: x in keys ==> x in counts
    requires forall i, j :: 0 <= i < j < |keys| ==> keys[i] != keys[j]
    requires k in keys
    ensures Total(keys, counts[k := counts[k] + 1]) == Total(keys, counts) + 1
  {
    var init, last := keys[..|keys| - 1], keys[|keys| - 1];
    assert forall x :: x in init ==> x in keys;
    if last == k {
      assert k !in init by {
        forall i | 0 <= i < |init| ensures init[i] != k {
          assert init[i] == keys[i];
        }
      }
      TotalOther(init, counts, k, counts[k] + 1);
    } else {
      assert k in init by {
        var i :| 0 <= i < |keys| && keys[i] == k;
        assert init[i] == k;
      }
      TotalBump(init, counts, k);
    }
  }

  /** `order` and `counts` tally `keys`: the keys in first-seen order, each with its number of
      occurrences, the counts adding up to the number of keys. */
  ghost predicate Tally(keys: seq<string>, order: seq<string>, counts: map<string, nat>) {
    && order == DedupeBy(keys, Id)
    && (forall k :: k in counts <==> k in order)
    && (forall k :: k in counts ==> counts[k] == multiset(keys)[k])
    && Total(order, counts) == |keys|
  }

  /** The keys `DedupeBy(_, Id)` has seen are the items it kept. */
  lemma KeySetId(s: seq<string>)
    ensures forall k :: k in KeySet(s, Id) <==> k in s
  {
    forall k ensures k in KeySet(s, Id) <==> k in s {
      if k in s {
        assert Id(k) == k;
      }
    }
  }

  /** One more key that was seen before: its count goes up by one. */
  lemma TallySeen(keys: seq<string>, key: string, order: seq<string>, counts: map<string, nat>)
    requires Tally(keys, order, counts)
    requires key in counts
    ensures Tally(keys + [key], order, counts[key := counts[key] + 1])
  {
    assert DedupeBy(keys + [key], Id) == order by {
      DedupeStep(keys, key, Id);
      KeySetId(order);
    }
    assert multiset(keys + [key]) == multiset(keys) + multiset{key};
    assert Total(order, counts[key := counts[key] + 1]) == |keys| + 1 by {
      DedupeUniqueKeys(keys, Id);
      TotalBump(order, counts, key);
    }
  }

  /** One more key that is new: it is appended with count 1. */
  lemma TallyNew(keys: seq<string>, key: string, order: seq<string>, counts: map<string, nat>)
    requires Tally(keys, order, counts)
    requires key !in counts
    ensures Tally(keys + [key], order + [key], counts[key := 1])
  {
    assert DedupeBy(keys + [key], Id) == order + [key] by {
      DedupeStep(keys, key, Id);
      KeySetId(order);
    }
    assert multiset(keys + [key]) == multiset(keys) + multiset{key};
    assert multiset(keys)[key] == 0 by {
      DedupeKeySet(keys, Id);
      KeySetId(order);
      KeySetId(keys);
    }
    var counts' := counts[key := 1];
    assert Total(order + [key], counts') == |keys| + 1 by {
      TotalOther(order, counts, key, 1);
      assert (order + [key])[..|order|] == order;
    }
  }

  /** The bucket loop. `order` is the order in which the dictionary first saw each key, which
      is the order `items()` reports them in; each count is the number of scans in that bucket,
      and the counts add up to the number of scans. */
  method CountBuckets(scans: seq<ScanRow>) returns (order: seq<string>, counts: map<string, nat>)
    ensures order == DedupeBy(Map(scans, BucketKey), Id)
    ensures forall k :: k in counts <==> k in order
    ensures forall k :: k in counts ==> counts[k] == multiset(Map(scans, BucketKey))[k]
    ensures Total(order, counts) == |scans|
  {
    order := [];
    counts := map[];
    for i := 0 to |scans|
      invariant Tally(Map(scans[..i], BucketKey), order, counts)
    {
      var key := BucketKey(scans[i]);
      MapStep(scans, i, BucketKey);
      if key in counts {
        TallySeen(Map(scans[..i], BucketKey), key, order, counts);
        counts := counts[key := counts[key] + 1];
      } else {
        TallyNew(Map(scans[..i], BucketKey), key, order, counts);
        counts := counts[key := 1];
        order := order + [key];
      }
    }
    assert scans[..|scans|] == scans;
  }

  // ---------------------------------------------------------------------------------------------
  // Top buckets and colours

  function PairCount(p: (string, nat)): real {
    p.1 as real
  }

  /** `buckets.items()` for the buckets of `scans`: each key in first-seen order with its
      number of scans. */
  function BucketPairs(scans: seq<ScanRow>): (r: seq<(string, nat)>)
    ensures forall i :: 0 <= i < |r| ==> r[i].1 == multiset(Map(scans, BucketKey))[r[i].0]
  {
    var order := DedupeBy(Map(scans, BucketKey), Id);
    seq(|order|, i requires 0 <= i < |order| => (order[i], multiset(Map(scans, BucketKey))[order[i]]))
  }

  /** The i-th of the top buckets with the i-th colour of the palette, cycling. */
  function Cards(top: seq<(string, nat)>): (r: seq<CityCard>)
    ensures |r| == |top|
    ensures forall i :: 0 <= i < |r| ==> r[i].name == top[i].0 && r[i].count == top[i].1
    ensures forall i :: 0 <= i < |r| ==> r[i].colorHex == Palette[i % |Palette|]
  {
    seq(|top|, i requires 0 <= i < |top| => CityCard(top[i].0, Palette[i % |Palette|], top[i].1))
  }

  /** At most six cards come out, so no two of them share a colour. */
  lemma CardColoursDistinct(top: seq<(string, nat)>)
    requires |top| <= |Palette|
    ensures forall i, j :: 0 <= i < j < |Cards(top)| ==> Cards(top)[i].colorHex != Cards(top)[j].colorHex
  {
    forall i, j | 0 <= i < j < |Palette| ensures Palette[i] != Palette[j] {
      assert Palette[i][1] != Palette[j][1] || Palette[i][2] != Palette[j][2];
    }
  }

  /** Every one of the six largest buckets is at least as large as every bucket left out. */
  lemma TopPairsDominate(pairs: seq<(string, nat)>)
    ensures var top := TopBy(pairs, PairCount, 6);
      forall i, p: (string, nat) :: 0 <= i < |top| && p in multiset(pairs) - multiset(top) ==> top[i].1 >= p.1
  {
    var top := TopBy(pairs, PairCount, 6);
    TopByKeepsHighest(pairs, PairCount, 6);
    forall i, p: (string, nat) | 0 <= i < |top| && p in multiset(pairs) - multiset(top) ensures top[i].1 >= p.1 {
      assert top[i] in top;
      assert PairCount(top[i]) >= PairCount(p);
    }
  }

  /** The cards of the six largest buckets: as many as there are buckets up to six, the
      largest first, no two of the same colour. */
  lemma TopCardsOrdered(scans: seq<ScanRow>)
    ensures var pairs := BucketPairs(scans);
      var cities := Cards(TopBy(pairs, PairCount, 6));
      && |cities| == (if |pairs| <= 6 then |pairs| else 6)
      && forall i, j :: 0 <= i < j < |cities| ==>
           cities[i].count >= cities[j].count && cities[i].colorHex != cities[j].colorHex
  {
    var top := TopBy(BucketPairs(scans), PairCount, 6);
    TopBySorted(BucketPairs(scans), PairCount, 6);
    CardColoursDistinct(top);
  }

  /** No bucket left off the cards is larger than any bucket on them. */
  lemma TopCardsDominate(scans: seq<ScanRow>)
    ensures var pairs := BucketPairs(scans);
      var top := TopBy(pairs, PairCount, 6);
      var cities := Cards(top);
      forall i, p: (string, nat) :: 0 <= i < |cities| && p in multiset(pairs) - multiset(top) ==>
        cities[i].count >= p.1
  {
    TopPairsDominate(BucketPairs(scans));
  }

  /** Each of the top cards carries its bucket's number of scans. */
  lemma TopCardsCounts(scans: seq<ScanRow>)
    ensures forall c :: c in Cards(TopBy(BucketPairs(scans), PairCount, 6)) ==>
      c.count == multiset(Map(scans, BucketKey))[c.name]
  {
    var pairs := BucketPairs(scans);
    var top := TopBy(pairs, PairCount, 6);
    var cities := Cards(top);
    assert multiset(top) <= multiset(pairs) by {
      TopBySpec(pairs, PairCount, 6);
    }
    forall c | c in cities ensures c.count == multiset(Map(scans, BucketKey))[c.name] {
      var i :| 0 <= i < |cities| && cities[i] == c;
      assert top[i] in multiset(pairs);
    }
  }

  /** `get_wrapped`: one recent-scan entry per scan, in scan order, and the cards of the six
      largest buckets, with the largest first, buckets of equal size in first-seen order, and
      six distinct colours. */
  method GetWrapped(scans: seq<ScanRow>) returns (r: WrappedView)
    ensures r.recentScans == Map(scans, RecentScanOf)
    ensures r.cities == Cards(TopBy(BucketPairs(scans), PairCount, 6))
    ensures |r.cities| == (if |BucketPairs(scans)| <= 6 then |BucketPairs(scans)| else 6)
    ensures forall i, j :: 0 <= i < j < |r.cities| ==>
      r.cities[i].count >= r.cities[j].count && r.cities[i].colorHex != r.cities[j].colorHex
    ensures forall c :: c in r.cities ==> c.count == multiset(Map(scans, BucketKey))[c.name]
  {
    var recentScans := Map(scans, RecentScanOf);
    var order, counts := CountBuckets(scans);
    var pairs := seq(|order|, i requires 0 <= i < |order| => (order[i], counts[order[i]]));
    assert pairs == BucketPairs(scans);
    var top := TopBy(pairs, PairCount, 6);
    var cities := Cards(top);
    TopCardsOrdered(scans);
    TopCardsCounts(scans);
    return WrappedView(cities, recentScans);
  }
}
