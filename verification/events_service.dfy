/** Nearby-event suggestions of backend/services/events_service.py: turning each event of the
    ticketing API's reply into a suggestion and keeping the first event per (name, venue, day).
    The HTTP call is the `reply` argument (its `Err` arm is a raised request error); the
    distance, which the service converts from a float, arrives already in metres. */
module EventsService {
  import opened Wrappers
  import opened Text
  import opened Seqs
  import Cache

  /** The first venue of an event, as far as the service reads it. */
  datatype RawVenue = RawVenue(name: Option<string>, line1: Option<string>, city: Option<string>, state: Option<string>)

  /** One item of the reply's event list. `name` is None when the field is absent;
      `segments` holds the segment name of each classification. */
  datatype RawEvent = RawEvent(
    name: Option<string>,
    venues: seq<RawVenue>,
    dateTime: Option<string>,
    distanceMeters: Option<int>,
    segments: seq<Option<string>>,
    url: Option<string>)

  /** A suggestion as the service builds it (the EventSuggestion record). */
  datatype EventSuggestion = EventSuggestion(
    name: string,
    startTime: Option<string>,
    venue: Option<string>,
    address: Option<string>,
    distanceMeters: Option<int>,
    category: Option<string>,
    url: Option<string>)

  const EventsTtl: int := 60 * 10

  /** The day part of an ISO date-time: the text before the first 'T', or "" when there is no
      date-time or it has no 'T'. */
  function DateOnly(dateTime: Option<string>): (r: string)
    ensures dateTime.None? || 'T' !in dateTime.value ==> r == ""
    ensures dateTime.Some? && 'T' in dateTime.value ==>
      'T' !in r && |r| < |dateTime.value| && r == dateTime.value[..|r|] && dateTime.value[|r|] == 'T'
  {
    if dateTime.Some? && 'T' in dateTime.value then BeforeFirst(dateTime.value, 'T') else ""
  }

  /** The venue's address: the non-empty parts among street line, city and state, in that
      order, joined with ", "; None when all are missing or empty. */
  function AddressOf(v: RawVenue): (r: Option<string>)
    ensures r.None? <==> !Truthy(v.line1) && !Truthy(v.city) && !Truthy(v.state)
    ensures r.Some? ==> r.value == Join(Present([v.line1, v.city, v.state]), ", ")
  {
    var parts := Present([v.line1, v.city, v.state]);
    assert parts == [] <==> !Truthy(v.line1) && !Truthy(v.city) && !Truthy(v.state) by {
      var xs := [v.line1, v.city, v.state];
      if Truthy(v.line1) { assert Some(v.line1.value) == xs[0]; assert v.line1.value in parts; }
      if Truthy(v.city) { assert Some(v.city.value) == xs[1]; assert v.city.value in parts; }
      if Truthy(v.state) { assert Some(v.state.value) == xs[2]; assert v.state.value in parts; }
      if parts != [] {
        assert parts[0] in parts;
        assert parts[0] != "" && Some(parts[0]) in xs;
      }
    }
    if parts != [] then Some(Join(parts, ", ")) else None
  }

  /** One reply item as a suggestion: venue and address come from the first venue (None when
      there is none), the category from the first classification (None when there is none). */
  function EventFromRaw(item: RawEvent): (e: EventSuggestion)
    ensures item.venues == [] ==> e.venue.None? && e.address.None?
    ensures item.segments == [] ==> e.category.None?
    ensures e.name == item.name.GetOr("Event")
    ensures e.startTime == item.dateTime
  {
    var venue := if item.venues != [] then item.venues[0].name else None;
    var address := if item.venues != [] then AddressOf(item.venues[0]) else None;
    var category := if item.segments != [] then item.segments[0] else None;
    EventSuggestion(item.name.GetOr("Event"), item.dateTime, venue, address, item.distanceMeters, category, item.url)
  }

  /** Two suggestions are the same event when their names and venues agree after trimming and
      lower-casing and they fall on the same day. */
  function EventKey(e: EventSuggestion): (string, string, string) {
    (StripLower(e.name), StripLower(e.venue.GetOr("")), DateOnly(e.startTime))
  }

  /** The loop of `get_nearby_events`: map each item, skip it when its key was already seen.
      No two results share a key, each first occurrence is kept, order follows the reply, and
      there are never more results than items. */
  method CollectEvents(items: seq<RawEvent>) returns (events: seq<EventSuggestion>)
    ensures events == DedupeBy(Map(items, EventFromRaw), EventKey)
    ensures |events| <= |items|
    ensures IsSubseq(events, Map(items, EventFromRaw))
    ensures forall i, j :: 0 <= i < j < |events| ==> EventKey(events[i]) != EventKey(events[j])
    ensures forall i :: IsFirstOfKey(Map(items, EventFromRaw), EventKey, i) ==> Map(items, EventFromRaw)[i] in events
  {
    events := [];
    var seen: set<(string, string, string)> := {};
    for i := 0 to |items|
      invariant events == DedupeBy(Map(items[..i], EventFromRaw), EventKey)
      invariant seen == KeySet(events, EventKey)
    {
      var item := items[i];
      var venue: Option<string> := None;
      var address: Option<string> := None;
      if item.venues != [] {
        venue := item.venues[0].name;
        address := AddressOf(item.venues[0]);
      }
      var dateOnly := DateOnly(item.dateTime);
      var category: Option<string> := None;
      if item.segments != [] {
        category := item.segments[0];
      }
      var name := item.name.GetOr("Event");
      var key := (StripLower(name), StripLower(venue.GetOr("")), dateOnly);
      var e := EventSuggestion(name, item.dateTime, venue, address, item.distanceMeters, category, item.url);
      assert e == EventFromRaw(item) && key == EventKey(e);
      MapStep(items, i, EventFromRaw);
      DedupeStep(Map(items[..i], EventFromRaw), e, EventKey);
      if key in seen {
        continue;
      }
      KeySetAppend(events, e, EventKey);
      seen := seen + {key};
      events := events + [e];
    }
    assert items[..|items|] == items;
    DedupeSubseq(Map(items, EventFromRaw), EventKey);
    DedupeUniqueKeys(Map(items, EventFromRaw), EventKey);
    DedupeKeepsFirst(Map(items, EventFromRaw), EventKey);
  }

  /** `events:{lat}:{lng}:{radius_km}`, with the coordinates already rounded to four places. */
  function EventsCacheKey(latText: string, lngText: string, radiusKm: int): string {
    "events:" + latText + ":" + lngText + ":" + IntText(radiusKm)
  }

  /** `get_nearby_events`: [] without an API key; a live non-empty cached list when there is
      one; otherwise the collected events, cached for ten minutes. A failed request raises and
      caches nothing. */
  method GetNearbyEvents(cache: Cache.TtlCache<seq<EventSuggestion>>, now: real, apiKey: Option<string>,
                         latText: string, lngText: string, radiusKm: int, reply: Result<seq<RawEvent>, string>)
    returns (r: Result<seq<EventSuggestion>, string>)
    modifies cache
    ensures !Truthy(apiKey) ==> r == Ok([]) && cache.entries == old(cache.entries)
    ensures Truthy(apiKey) ==>
      var key := EventsCacheKey(latText, lngText, radiusKm);
      var hit := Cache.Lookup(old(cache.entries), key, now);
      var miss := hit.None? || hit.value == [];
      && (!miss ==> r == Ok(hit.value) && cache.entries == old(cache.entries))
      && (miss && reply.Err? ==> r == Err(reply.error) && cache.entries == Cache.AfterGet(old(cache.entries), key, now))
      && (miss && reply.Ok? ==>
            var events := DedupeBy(Map(reply.value, EventFromRaw), EventKey);
            r == Ok(events) && cache.entries == Cache.AfterGet(old(cache.entries), key, now)[key := Cache.Entry(now + EventsTtl as real, events)])
  {
    if !Truthy(apiKey) {
      return Ok([]);
    }
    var cacheKey := EventsCacheKey(latText, lngText, radiusKm);
    var cached := cache.Get(cacheKey, now);
    if cached.Some? && cached.value != [] {
      return Ok(cached.value);
    }
    if reply.Err? {
      return Err(reply.error);
    }
    var events := CollectEvents(reply.value);
    cache.Set(cacheKey, events, EventsTtl, now);
    return Ok(events);
  }
}
