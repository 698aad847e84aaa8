/** Nearby-place suggestions of backend/services/places_service.py: mapping the places API
    reply, scoring, keeping the first place per key, and ranking. The HTTP call is the `reply`
    argument (its `Err` arm is a raised request error); the great-circle distance is the
    parameter `haversine`; the rounded coordinates of the cache key are given as text. */
module PlacesService {
  import opened Wrappers
  import opened Text
  import opened Seqs
  import Cache

  /** A suggestion as the service builds it (the PlaceSuggestion record). */
  datatype PlaceSuggestion = PlaceSuggestion(
    name: string,
    lat: Option<real>,
    lng: Option<real>,
    address: Option<string>,
    rating: Option<real>,
    userRatingsTotal: Option<int>,
    distanceMeters: Option<int>,
    openNow: Option<bool>,
    placeId: Option<string>,
    types: seq<string>,
    mapsUrl: Option<string>)

  /** One item of the API's `results` list; an absent field is None, an absent or empty
      `types` list is []. */
  datatype RawPlace = RawPlace(
    name: Option<string>,
    lat: Option<real>,
    lng: Option<real>,
    vicinity: Option<string>,
    formattedAddress: Option<string>,
    rating: Option<real>,
    userRatingsTotal: Option<int>,
    openNow: Option<bool>,
    placeId: Option<string>,
    types: seq<string>)

  const PlacesTtl: int := 60 * 10
  const LandmarkTypes: seq<string> := ["tourist_attraction", "museum", "park"]
  const FoodTypes: seq<string> := ["restaurant", "cafe", "bakery"]
  const MapsPrefix: string := "https://www.google.com/maps/place/?q=place_id:"

  // ---------------------------------------------------------------------------------------------
  // _score_place

  function Max1(radius: int): int {
    if radius >= 1 then radius else 1
  }

  /** Dividing by a positive `m` keeps the sign, and the quotient is below 1 exactly when the
      dividend is below `m`. */
  lemma DivideByPositive(d: real, m: real)
    requires m > 0.0
    ensures d >= 0.0 ==> d / m >= 0.0
    ensures d / m < 1.0 <==> d < m
  {
    var q := d / m;
    assert q * m == d;
    if q < 1.0 {
      assert (1.0 - q) * m > 0.0;
    } else {
      assert (q - 1.0) * m >= 0.0;
    }
    assert q < 0.0 ==> (0.0 - q) * m > 0.0;
  }

  /** `max(0, 1 - d / max(1, radius))`: 1 at the origin, falling linearly to 0 at the radius. */
  function DistanceScore(d: int, radius: int): (r: real)
    ensures d >= 0 ==> 0.0 <= r <= 1.0
    ensures r == 0.0 <==> d >= Max1(radius)
  {
    DivideByPositive(d as real, Max1(radius) as real);
    var x := 1.0 - d as real / Max1(radius) as real;
    if x > 0.0 then x else 0.0
  }

  /** `_score_place`: 0 without a distance; otherwise weighted distance, rating and open bonus. */
  function ScorePlace(p: PlaceSuggestion, radius: int): (s: real)
    ensures p.distanceMeters.None? ==> s == 0.0
    ensures p.distanceMeters.Some? ==>
      s == 0.55 * DistanceScore(p.distanceMeters.value, radius) + 0.35 * p.rating.GetOr(0.0) / 5.0
           + (if p.openNow == Some(true) then 0.15 else 0.0)
  {
    if p.distanceMeters.None? then 0.0
    else
      var distScore := DistanceScore(p.distanceMeters.value, radius);
      var ratingScore := p.rating.GetOr(0.0) / 5.0;
      var openBonus := if p.openNow == Some(true) then 0.15 else 0.0;
      0.55 * distScore + 0.35 * ratingScore + openBonus
  }

  /** For a non-negative distance and a rating in [0, 5] the score lies in [0, 1.05]; at or
      beyond the radius only rating and opening count. */
  lemma ScoreBounds(p: PlaceSuggestion, radius: int)
    requires p.distanceMeters.Some? && p.distanceMeters.value >= 0
    requires 0.0 <= p.rating.GetOr(0.0) <= 5.0
    ensures 0.0 <= ScorePlace(p, radius) <= 1.05
    ensures p.distanceMeters.value >= Max1(radius) ==>
      ScorePlace(p, radius) == 0.35 * p.rating.GetOr(0.0) / 5.0 + (if p.openNow == Some(true) then 0.15 else 0.0)
  {
    var d := DistanceScore(p.distanceMeters.value, radius);
    assert 0.0 <= 0.55 * d <= 0.55;
    assert 0.0 <= 0.35 * p.rating.GetOr(0.0) / 5.0 <= 0.35;
  }

  /** Moving a place closer never lowers its score. */
  lemma CloserScoresHigher(p: PlaceSuggestion, d1: int, d2: int, radius: int)
    requires d1 <= d2
    ensures ScorePlace(p.(distanceMeters := Some(d1)), radius) >= ScorePlace(p.(distanceMeters := Some(d2)), radius)
  {
    var m := Max1(radius) as real;
    assert d1 as real / m <= d2 as real / m by {
      assert (d2 as real - d1 as real) / m >= 0.0;
      assert d2 as real / m - d1 as real / m == (d2 as real - d1 as real) / m;
    }
  }

  /** The score as a key function, for sorting. */
  function ScoreFn(radius: int): PlaceSuggestion -> real {
    p => ScorePlace(p, radius)
  }

  // ---------------------------------------------------------------------------------------------
  // _dedupe_places

  /** The place id when it is non-empty, otherwise `"{name}:{address}"`. */
  function PlaceKey(p: PlaceSuggestion): string {
    if Truthy(p.placeId) then p.placeId.value else p.name + ":" + OptText(p.address)
  }

  /** `_dedupe_places`: the first place per key, in input order; every key of the input is kept. */
  method DedupePlaces(items: seq<PlaceSuggestion>) returns (result: seq<PlaceSuggestion>)
    ensures result == DedupeBy(items, PlaceKey)
    ensures IsSubseq(result, items)
    ensures forall i, j :: 0 <= i < j < |result| ==> PlaceKey(result[i]) != PlaceKey(result[j])
    ensures forall i :: IsFirstOfKey(items, PlaceKey, i) ==> items[i] in result
    ensures KeySet(result, PlaceKey) == KeySet(items, PlaceKey)
  {
    var seen: set<string> := {};
    result := [];
    for i := 0 to |items|
      invariant result == DedupeBy(items[..i], PlaceKey)
      invariant seen == KeySet(result, PlaceKey)
    {
      assert items[..i + 1] == items[..i] + [items[i]];
      DedupeStep(items[..i], items[i], PlaceKey);
      var key := PlaceKey(items[i]);
      if key in seen {
        continue;
      }
      KeySetAppend(result, items[i], PlaceKey);
      seen := seen + {key};
      result := result + [items[i]];
    }
    assert items[..|items|] == items;
    DedupeSubseq(items, PlaceKey);
    DedupeUniqueKeys(items, PlaceKey);
    DedupeKeepsFirst(items, PlaceKey);
    DedupeKeySet(items, PlaceKey);
  }

  // ---------------------------------------------------------------------------------------------
  // Ranking

  /** `sorted(places, key=score, reverse=True)[:max_results]`. */
  function RankPlaces(places: seq<PlaceSuggestion>, radius: int, maxResults: int): seq<PlaceSuggestion> {
    TopBy(places, ScoreFn(radius), maxResults)
  }

  /** The ranking keeps exactly `min(max_results, |places|)` places (that many fewer than all when
      `max_results` is negative), all from the input, each scoring at least as high as every
      place left out, in non-increasing score order; places of equal score keep their input
      order. */
  lemma RankPlacesSpec(places: seq<PlaceSuggestion>, radius: int, maxResults: int)
    ensures var r := RankPlaces(places, radius, maxResults);
      && (maxResults >= 0 ==> |r| == (if maxResults <= |places| then maxResults else |places|))
      && (maxResults < 0 ==> |r| == (if |places| + maxResults >= 0 then |places| + maxResults else 0))
      && multiset(r) <= multiset(places)
      && (forall p, q :: p in r && q in multiset(places) - multiset(r) ==>
            ScoreFn(radius)(p) >= ScoreFn(radius)(q))
      && SortedDesc(r, ScoreFn(radius))
      && forall v :: IsPrefix(WithScore(r, ScoreFn(radius), v), WithScore(places, ScoreFn(radius), v))
  {
    TopBySpec(places, ScoreFn(radius), maxResults);
  }

  /** The merge step of `get_nearby_*`: keep the first place per key, rank, truncate. The result
      has no two places with the same key. */
  method MergeRanked(collected: seq<PlaceSuggestion>, radius: int, maxResults: int) returns (ranked: seq<PlaceSuggestion>)
    ensures ranked == RankPlaces(DedupeBy(collected, PlaceKey), radius, maxResults)
    ensures forall i, j :: 0 <= i < j < |ranked| ==> PlaceKey(ranked[i]) != PlaceKey(ranked[j])
    ensures maxResults >= 0 ==> |ranked| <= maxResults
    ensures SortedDesc(ranked, ScoreFn(radius))
  {
    var deduped := DedupePlaces(collected);
    var sorted := SortDesc(deduped, ScoreFn(radius));
    ranked := SliceTo(sorted, maxResults);
    RankPlacesSpec(deduped, radius, maxResults);
    DistinctKeysSub(ranked, deduped, PlaceKey);
  }

  // ---------------------------------------------------------------------------------------------
  // _fetch_places

  /** One API result as a suggestion; the distance is measured only when both coordinates are
      present, and the maps link exists only for a non-empty place id. */
  function PlaceFromRaw(raw: RawPlace, lat: real, lng: real, haversine: (real, real, real, real) -> nat): (p: PlaceSuggestion)
    ensures p.distanceMeters.Some? <==> raw.lat.Some? && raw.lng.Some?
    ensures p.mapsUrl.Some? <==> Truthy(raw.placeId)
    ensures p.name == raw.name.GetOr("Unknown")
    ensures p.address == if Truthy(raw.vicinity) then raw.vicinity else raw.formattedAddress
  {
    var distance := if raw.lat.None? || raw.lng.None? then None else Some(haversine(lat, lng, raw.lat.value, raw.lng.value) as int);
    PlaceSuggestion(
      name := raw.name.GetOr("Unknown"),
      lat := raw.lat,
      lng := raw.lng,
      address := if Truthy(raw.vicinity) then raw.vicinity else raw.formattedAddress,
      rating := raw.rating,
      userRatingsTotal := raw.userRatingsTotal,
      distanceMeters := distance,
      openNow := raw.openNow,
      placeId := raw.placeId,
      types := raw.types,
      mapsUrl := if Truthy(raw.placeId) then Some(MapsPrefix + raw.placeId.value) else None)
  }

  function MapPlaces(raws: seq<RawPlace>, lat: real, lng: real, haversine: (real, real, real, real) -> nat): (r: seq<PlaceSuggestion>)
    ensures |r| == |raws|
    ensures forall i :: 0 <= i < |raws| ==> r[i] == PlaceFromRaw(raws[i], lat, lng, haversine)
  {
    seq(|raws|, i requires 0 <= i < |raws| => PlaceFromRaw(raws[i], lat, lng, haversine))
  }

  /** `places:{type}:{lat}:{lng}:{radius}`, with the coordinates already rounded to four places. */
  function PlacesCacheKey(placeType: string, latText: string, lngText: string, radius: int): string {
    "places:" + placeType + ":" + latText + ":" + lngText + ":" + IntText(radius)
  }

  /** `_fetch_places`: [] without an API key; a live non-empty cached list when there is one;
      otherwise the mapped, ranked and truncated API results, cached for ten minutes. A failed
      request raises and caches nothing. */
  method FetchPlaces(cache: Cache.TtlCache<seq<PlaceSuggestion>>, now: real, apiKey: Option<string>,
                     lat: real, lng: real, latText: string, lngText: string, placeType: string,
                     radius: int, maxResults: int, reply: Result<seq<RawPlace>, string>,
                     haversine: (real, real, real, real) -> nat)
    returns (r: Result<seq<PlaceSuggestion>, string>)
    modifies cache
    ensures !Truthy(apiKey) ==> r == Ok([]) && cache.entries == old(cache.entries)
    ensures Truthy(apiKey) ==>
      var key := PlacesCacheKey(placeType, latText, lngText, radius);
      var hit := Cache.Lookup(old(cache.entries), key, now);
      var miss := hit.None? || hit.value == [];
      && (!miss ==> r == Ok(hit.value) && cache.entries == old(cache.entries))
      && (miss && reply.Err? ==> r == Err(reply.error) && cache.entries == Cache.AfterGet(old(cache.entries), key, now))
      && (miss && reply.Ok? ==>
            var ranked := RankPlaces(MapPlaces(reply.value, lat, lng, haversine), radius, maxResults);
            r == Ok(ranked) && cache.entries == Cache.AfterGet(old(cache.entries), key, now)[key := Cache.Entry(now + PlacesTtl as real, ranked)])
  {
    if !Truthy(apiKey) {
      return Ok([]);
    }
    var cacheKey := PlacesCacheKey(placeType, latText, lngText, radius);
    var cached := cache.Get(cacheKey, now);
    if cached.Some? && cached.value != [] {
      return Ok(cached.value);
    }
    if reply.Err? {
      return Err(reply.error);
    }
    var results := reply.value;
    var places: seq<PlaceSuggestion> := [];
    for i := 0 to |results|
      invariant |places| == i
      invariant forall k :: 0 <= k < i ==> places[k] == PlaceFromRaw(results[k], lat, lng, haversine)
    {
      places := places + [PlaceFromRaw(results[i], lat, lng, haversine)];
    }
    assert places == MapPlaces(results, lat, lng, haversine);
    places := RankPlaces(places, radius, maxResults);
    cache.Set(cacheKey, places, PlacesTtl, now);
    return Ok(places);
  }

  // ---------------------------------------------------------------------------------------------
  // get_nearby_landmarks / get_nearby_food

  /** Fetches each place type in turn, concatenating the results, then merges. The first failed
      request raises. The result holds at most `max_results` places, with distinct keys, in
      non-increasing score order; without an API key it is empty. */
  method GetNearby(cache: Cache.TtlCache<seq<PlaceSuggestion>>, now: real, apiKey: Option<string>,
                   lat: real, lng: real, latText: string, lngText: string, placeTypes: seq<string>,
                   radius: int, maxResults: int, api: string -> Result<seq<RawPlace>, string>,
                   haversine: (real, real, real, real) -> nat)
    returns (r: Result<seq<PlaceSuggestion>, string>)
    modifies cache
    ensures !Truthy(apiKey) ==> r == Ok([])
    ensures r.Ok? ==> forall i, j :: 0 <= i < j < |r.value| ==> PlaceKey(r.value[i]) != PlaceKey(r.value[j])
    ensures r.Ok? && maxResults >= 0 ==> |r.value| <= maxResults
    ensures r.Ok? ==> SortedDesc(r.value, ScoreFn(radius))
  {
    var collected: seq<PlaceSuggestion> := [];
    for i := 0 to |placeTypes|
      invariant !Truthy(apiKey) ==> collected == []
    {
      var fetched := FetchPlaces(cache, now, apiKey, lat, lng, latText, lngText, placeTypes[i], radius, maxResults, api(placeTypes[i]), haversine);
      if fetched.Err? {
        return Err(fetched.error);
      }
      collected := collected + fetched.value;
    }
    var ranked := MergeRanked(collected, radius, maxResults);
    return Ok(ranked);
  }

  /** `get_nearby_landmarks`: tourist attractions, museums and parks. */
  method GetNearbyLandmarks(cache: Cache.TtlCache<seq<PlaceSuggestion>>, now: real, apiKey: Option<string>,
                            lat: real, lng: real, latText: string, lngText: string,
                            radius: int, maxResults: int, api: string -> Result<seq<RawPlace>, string>,
                            haversine: (real, real, real, real) -> nat)
    returns (r: Result<seq<PlaceSuggestion>, string>)
    modifies cache
    ensures !Truthy(apiKey) ==> r == Ok([])
    ensures r.Ok? ==> forall i, j :: 0 <= i < j < |r.value| ==> PlaceKey(r.value[i]) != PlaceKey(r.value[j])
    ensures r.Ok? && maxResults >= 0 ==> |r.value| <= maxResults
    ensures r.Ok? ==> SortedDesc(r.value, ScoreFn(radius))
  {
    r := GetNearby(cache, now, apiKey, lat, lng, latText, lngText, LandmarkTypes, radius, maxResults, api, haversine);
  }

  /** `get_nearby_food`: restaurants, cafes and bakeries. */
  method GetNearbyFood(cache: Cache.TtlCache<seq<PlaceSuggestion>>, now: real, apiKey: Option<string>,
                       lat: real, lng: real, latText: string, lngText: string,
                       radius: int, maxResults: int, api: string -> Result<seq<RawPlace>, string>,
                       haversine: (real, real, real, real) -> nat)
    returns (r: Result<seq<PlaceSuggestion>, string>)
    modifies cache
    ensures !Truthy(apiKey) ==> r == Ok([])
    ensures r.Ok? ==> forall i, j :: 0 <= i < j < |r.value| ==> PlaceKey(r.value[i]) != PlaceKey(r.value[j])
    ensures r.Ok? && maxResults >= 0 ==> |r.value| <= maxResults
    ensures r.Ok? ==> SortedDesc(r.value, ScoreFn(radius))
  {
    r := GetNearby(cache, now, apiKey, lat, lng, latText, lngText, FoodTypes, radius, maxResults, api, haversine);
  }
}
