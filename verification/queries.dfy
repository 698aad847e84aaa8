/** The read queries of backend/db/queries.py that compute something from the rows the
    database returns: a user's scan statistics, their profile and their most visited city.
    The database round trip is the `rows` argument, whose `Err` arm is a failed request;
    the wall clock is the `now` (microseconds since the epoch) and `today` (UTC day number)
    parameters; `datetime.fromisoformat` is the parameter `fromIso`. */
module Queries {
  import opened Wrappers
  import opened Text

  // ---------------------------------------------------------------------------------------------
  // Rows

  /** The `tags` column as the client library hands it back: a JSON list of strings, a bare
      string, or nothing (null, or any other JSON value). */
  datatype TagsValue = TagList(items: seq<string>) | TagText(text: string) | NoTags

  /** A row of the `scans` table; a column the query did not select, or that holds null, is None. */
  datatype ScanRow = ScanRow(
    id: Option<string>,
    landmarkName: Option<string>,
    tags: TagsValue,
    timestamp: Option<string>,
    imageUrl: Option<string>,
    city: Option<string>)

  /** A parsed ISO-8601 time: its instant in microseconds since the epoch (meaningful only when
      it carries an offset), its calendar day (a day number, in its own offset), and whether it
      carries an offset at all. */
  datatype Moment = Moment(instant: int, day: int, aware: bool)

  /** The scan's time as the statistics read it: present and non-empty, with every `Z`
      rewritten to `+00:00`, and accepted by the ISO parser. */
  function ParsedAt(scan: ScanRow, fromIso: string -> Option<Moment>): Option<Moment> {
    if Truthy(scan.timestamp) then fromIso(ReplaceChar(scan.timestamp.value, 'Z', "+00:00")) else None
  }

  // ---------------------------------------------------------------------------------------------
  // get_user_stats

  datatype UserStats = UserStats(placesVisited: nat, scansThisWeek: nat, streakDays: nat)

  /** What the statistics answer when anything goes wrong. */
  const NoStats := UserStats(0, 0, 0)

  /** Seven days in microseconds. */
  const WeekMicros: int := 7 * 24 * 60 * 60 * 1000000

  /** The distinct non-empty landmark names of the scans. */
  ghost function LandmarkNames(scans: seq<ScanRow>): set<string> {
    set i | 0 <= i < |scans| && Truthy(scans[i].landmarkName) :: scans[i].landmarkName.value
  }

  lemma LandmarkNamesStep(scans: seq<ScanRow>, i: nat)
    requires i < |scans|
    ensures LandmarkNames(scans[..i + 1]) ==
      LandmarkNames(scans[..i]) + (if Truthy(scans[i].landmarkName) then {scans[i].landmarkName.value} else {})
  {
    var a, b := scans[..i + 1], scans[..i];
    forall x | x in LandmarkNames(a) ensures x in LandmarkNames(b) || (Truthy(scans[i].landmarkName) && x == scans[i].landmarkName.value) {
      var j :| 0 <= j < |a| && Truthy(a[j].landmarkName) && a[j].landmarkName.value == x;
      if j < i { assert b[j] == a[j]; }
    }
    forall x | x in LandmarkNames(b) ensures x in LandmarkNames(a) {
      var j :| 0 <= j < |b| && Truthy(b[j].landmarkName) && b[j].landmarkName.value == x;
      assert a[j] == b[j];
    }
    if Truthy(scans[i].landmarkName) {
      assert a[i] == scans[i];
    }
  }

  /** The number of distinct landmarks the user scanned. */
  method CountDistinctLandmarks(scans: seq<ScanRow>) returns (placesVisited: nat)
    ensures placesVisited == |LandmarkNames(scans)|
    ensures placesVisited <= |scans|
  {
    var unique: set<string> := {};
    for i := 0 to |scans|
      invariant unique == LandmarkNames(scans[..i])
      invariant |unique| <= i
    {
      LandmarkNamesStep(scans, i);
      if Truthy(scans[i].landmarkName) {
        unique := unique + {scans[i].landmarkName.value};
      }
    }
    assert scans[..|scans|] == scans;
    placesVisited := |unique|;
  }

  /** Some scan's time parses without an offset; comparing it with the offset-carrying
      `week_ago` raises TypeError, which the per-scan handler does not catch. */
  ghost predicate HasNaiveTimestamp(scans: seq<ScanRow>, fromIso: string -> Option<Moment>) {
    exists i :: 0 <= i < |scans| && ParsedAt(scans[i], fromIso).Some? && !ParsedAt(scans[i], fromIso).value.aware
  }

  /** How many scans have a parseable time strictly after `since`. */
  function CountRecent(scans: seq<ScanRow>, fromIso: string -> Option<Moment>, since: int): (n: nat)
    ensures n <= |scans|
    decreases |scans|
  {
    if scans == [] then 0
    else
      var p := ParsedAt(scans[|scans| - 1], fromIso);
      CountRecent(scans[..|scans| - 1], fromIso, since) + (if p.Some? && p.value.instant > since then 1 else 0)
  }

  /** The scans of the last seven days; Err when a naive time makes the comparison raise. */
  method CountScansThisWeek(scans: seq<ScanRow>, fromIso: string -> Option<Moment>, weekAgo: int)
    returns (r: Result<nat, string>)
    ensures r.Err? <==> HasNaiveTimestamp(scans, fromIso)
    ensures r.Ok? ==> r.value == CountRecent(scans, fromIso, weekAgo) && r.value <= |scans|
  {
    var n := 0;
    for i := 0 to |scans|
      invariant n == CountRecent(scans[..i], fromIso, weekAgo)
      invariant forall j :: 0 <= j < i ==> ParsedAt(scans[j], fromIso).None? || ParsedAt(scans[j], fromIso).value.aware
    {
      assert scans[..i + 1][..i] == scans[..i];
      var t := ParsedAt(scans[i], fromIso);
      if t.Some? {
        if !t.value.aware {
          return Err("can't compare offset-naive and offset-aware datetimes");
        }
        if t.value.instant > weekAgo {
          n := n + 1;
        }
      }
    }
    assert scans[..|scans|] == scans;
    return Ok(n);
  }

  /** The calendar days of the scans whose time parses. */
  ghost function ScanDays(scans: seq<ScanRow>, fromIso: string -> Option<Moment>): set<int> {
    set i | 0 <= i < |scans| && ParsedAt(scans[i], fromIso).Some? :: ParsedAt(scans[i], fromIso).value.day
  }

  lemma ScanDaysStep(scans: seq<ScanRow>, fromIso: string -> Option<Moment>, i: nat)
    requires i < |scans|
    ensures var p := ParsedAt(scans[i], fromIso);
      ScanDays(scans[..i + 1], fromIso) == ScanDays(scans[..i], fromIso) + (if p.Some? then {p.value.day} else {})
  {
    var a, b := scans[..i + 1], scans[..i];
    var p := ParsedAt(scans[i], fromIso);
    forall d | d in ScanDays(a, fromIso) ensures d in ScanDays(b, fromIso) || (p.Some? && d == p.value.day) {
      var j :| 0 <= j < |a| && ParsedAt(a[j], fromIso).Some? && ParsedAt(a[j], fromIso).value.day == d;
      if j < i { assert b[j] == a[j]; }
    }
    forall d | d in ScanDays(b, fromIso) ensures d in ScanDays(a, fromIso) {
      var j :| 0 <= j < |b| && ParsedAt(b[j], fromIso).Some? && ParsedAt(b[j], fromIso).value.day == d;
      assert a[j] == b[j];
    }
    if p.Some? {
      assert a[i] == scans[i];
    }
  }

  /** The set of days on which the user scanned. */
  method CollectScanDates(scans: seq<ScanRow>, fromIso: string -> Option<Moment>) returns (dates: set<int>)
    ensures dates == ScanDays(scans, fromIso)
  {
    dates := {};
    for i := 0 to |scans|
      invariant dates == ScanDays(scans[..i], fromIso)
    {
      ScanDaysStep(scans, fromIso, i);
      var t := ParsedAt(scans[i], fromIso);
      if t.Some? {
        dates := dates + {t.value.day};
      }
    }
    assert scans[..|scans|] == scans;
  }

  /** The walk back stops once it has gone more than 365 days: after 122 periods. */
  const MaxStreak: nat := 122

  /** The `k`-th three-day period back from `today` (days today-3k-2 ..= today-3k) holds a scan. */
  predicate WindowHit(dates: set<int>, today: int, k: nat) {
    exists d :: d in dates && today - 3 * k - 2 <= d <= today - 3 * k
  }

  /** The number of consecutive periods, from the `k`-th on, that hold a scan (at most up to
      period 121). */
  function StreakFrom(dates: set<int>, today: int, k: nat): nat
    decreases MaxStreak - k
  {
    if k >= MaxStreak || !WindowHit(dates, today, k) then 0 else 1 + StreakFrom(dates, today, k + 1)
  }

  /** The streak: one point per consecutive three-day period, counting back from today. */
  function StreakOf(dates: set<int>, today: int): nat {
    StreakFrom(dates, today, 0)
  }

  lemma {:induction false} StreakFromWindows(dates: set<int>, today: int, k: nat)
    ensures k + StreakFrom(dates, today, k) <= if k <= MaxStreak then MaxStreak else k
    ensures forall j :: k <= j < k + StreakFrom(dates, today, k) ==> WindowHit(dates, today, j)
    ensures k + StreakFrom(dates, today, k) < MaxStreak ==> !WindowHit(dates, today, k + StreakFrom(dates, today, k))
    decreases MaxStreak - k
  {
    if k < MaxStreak && WindowHit(dates, today, k) {
      StreakFromWindows(dates, today, k + 1);
    }
  }

  /** The streak is exactly the number of leading periods that hold a scan: periods 0 ..
      streak-1 all do, and the next one does not unless the 365-day cap was reached. */
  lemma StreakWindows(dates: set<int>, today: int)
    ensures StreakOf(dates, today) <= MaxStreak
    ensures forall j :: 0 <= j < StreakOf(dates, today) ==> WindowHit(dates, today, j)
    ensures StreakOf(dates, today) < MaxStreak ==> !WindowHit(dates, today, StreakOf(dates, today))
    ensures StreakOf(dates, today) == 0 <==> forall d :: d in dates ==> !(today - 2 <= d <= today)
  {
    StreakFromWindows(dates, today, 0);
  }

  /** The streak loop: walk back one three-day period at a time while each holds a scan. */
  method Streak(dates: set<int>, today: int) returns (streakDays: nat)
    ensures streakDays == StreakOf(dates, today)
  {
    streakDays := 0;
    var current := today;
    while true
      invariant current == today - 3 * streakDays
      invariant streakDays < MaxStreak
      invariant StreakOf(dates, today) == streakDays + StreakFrom(dates, today, streakDays)
      decreases MaxStreak - streakDays
    {
      var periodStart := current - 2;
      var hasScanInPeriod := exists d :: d in dates && periodStart <= d <= current;
      if hasScanInPeriod {
        streakDays := streakDays + 1;
        current := periodStart - 1;
      } else {
        break;
      }
      if today - current > 365 {
        break;
      }
    }
  }

  /** `get_user_stats`: distinct landmarks, scans of the last seven days, and the streak; all
      zero when the query fails or a scan time without offset makes the week count raise. */
  method GetUserStats(rows: Result<seq<ScanRow>, string>, fromIso: string -> Option<Moment>, now: int, today: int)
    returns (stats: UserStats)
    ensures rows.Err? ==> stats == NoStats
    ensures rows.Ok? && HasNaiveTimestamp(rows.value, fromIso) ==> stats == NoStats
    ensures rows.Ok? && !HasNaiveTimestamp(rows.value, fromIso) ==>
      stats == UserStats(|LandmarkNames(rows.value)|,
                         CountRecent(rows.value, fromIso, now - WeekMicros),
                         StreakOf(ScanDays(rows.value, fromIso), today))
    ensures stats.placesVisited <= (if rows.Ok? then |rows.value| else 0)
    ensures stats.scansThisWeek <= (if rows.Ok? then |rows.value| else 0)
    ensures stats.streakDays <= MaxStreak
  {
    if rows.Err? {
      return NoStats;
    }
    var scans := rows.value;
    var placesVisited := CountDistinctLandmarks(scans);
    var week := CountScansThisWeek(scans, fromIso, now - WeekMicros);
    if week.Err? {
      return NoStats;
    }
    var streakDays := 0;
    if scans != [] {
      var dates := CollectScanDates(scans, fromIso);
      if dates != {} {
        streakDays := Streak(dates, today);
      }
    }
    StreakWindows(ScanDays(scans, fromIso), today);
    return UserStats(placesVisited, week.value, streakDays);
  }

  // ---------------------------------------------------------------------------------------------
  // get_profile

  /** The selected columns of a `profiles` row. */
  datatype ProfileRow = ProfileRow(
    id: Option<string>,
    username: Option<string>,
    email: Option<string>,
    ageGroup: Option<string>,
    interest: Option<string>)

  /** The profile in the shape the services read. */
  datatype Profile = Profile(
    userId: Option<string>,
    ageBracket: Option<string>,
    interests: seq<string>,
    username: Option<string>,
    email: Option<string>)

  /** An entry as the stored comma-separated interest list holds it. */
  predicate IsInterestEntry(x: string) {
    x != "" && IsStripped(x) && ',' !in x
  }

  /** The stored `interest` text read back as a list. */
  function ParseInterestField(interest: Option<string>): (r: seq<string>)
    ensures forall x :: x in r ==> IsInterestEntry(x)
  {
    if Truthy(interest) then
      var parts := Split(interest.value, ",");
      var r := StrippedNonEmpty(parts);
      assert forall x :: x in r ==> ',' !in x by {
        StrippedKeepsAbsent(parts, ',');
      }
      r
    else []
  }

  /** Writing a list of interest entries as comma-separated text and reading it back gives the
      same list, the empty list included. */
  lemma InterestFieldRoundTrip(xs: seq<string>)
    requires forall x :: x in xs ==> IsInterestEntry(x)
    ensures ParseInterestField(Some(Join(xs, ","))) == xs
  {
    if xs != [] {
      SplitJoin(xs, ",");
      StrippedNonEmptyOfStripped(xs);
      assert Join(xs, ",") != "" by {
        if |xs| > 1 {
          assert Join(xs, ",") == xs[0] + "," + Join(xs[1..], ",");
        }
      }
    }
  }

  /** `get_profile`: the stored profile mapped to the services' shape, or None when the query
      fails or finds no row. */
  function GetProfile(row: Result<Option<ProfileRow>, string>): (r: Option<Profile>)
    ensures r.Some? <==> row.Ok? && row.value.Some?
    ensures r.Some? ==> r.value.userId == row.value.value.id && r.value.ageBracket == row.value.value.ageGroup
    ensures r.Some? ==> r.value.interests == ParseInterestField(row.value.value.interest)
  {
    match row
    case Ok(Some(p)) => Some(Profile(p.id, p.ageGroup, ParseInterestField(p.interest), p.username, p.email))
    case _ => None
  }

  // ---------------------------------------------------------------------------------------------
  // get_top_city_for_user

  function CountOf(cs: seq<string>, c: string): nat {
    multiset(cs)[c]
  }

  /** The first index from `i` on whose city occurs most often. */
  function MostCommonFrom(cs: seq<string>, i: nat): (j: nat)
    requires i < |cs|
    ensures i <= j < |cs|
    ensures forall k :: i <= k < |cs| ==> CountOf(cs, cs[k]) <= CountOf(cs, cs[j])
    ensures forall k :: i <= k < j ==> CountOf(cs, cs[k]) < CountOf(cs, cs[j])
    decreases |cs| - i
  {
    if i == |cs| - 1 then i
    else
      var j := MostCommonFrom(cs, i + 1);
      if CountOf(cs, cs[i]) >= CountOf(cs, cs[j]) then i else j
  }

  /** `get_top_city_for_user`: the most frequent city, the first one met among equals; None
      when the query fails or no row has a city. */
  function TopCity(rows: Result<seq<Option<string>>, string>): (r: Option<string>)
    ensures r.None? <==> rows.Err? || forall c :: c in rows.value ==> !Truthy(c)
    ensures r.Some? ==> r.value != "" && Some(r.value) in rows.value
    ensures r.Some? ==> forall c :: c in Present(rows.value) ==>
      CountOf(Present(rows.value), c) <= CountOf(Present(rows.value), r.value)
    ensures r.Some? ==> forall k ::
      (0 <= k < |Present(rows.value)| &&
       CountOf(Present(rows.value), Present(rows.value)[k]) == CountOf(Present(rows.value), r.value)) ==>
      exists j :: 0 <= j <= k && Present(rows.value)[j] == r.value
  {
    if rows.Err? then None
    else
      var cs := Present(rows.value);
      if cs == [] then
        assert forall c :: c in rows.value ==> !Truthy(c);
        None
      else
        var j := MostCommonFrom(cs, 0);
        assert forall c :: c in cs ==> CountOf(cs, c) <= CountOf(cs, cs[j]);
        assert forall k :: 0 <= k < |cs| && CountOf(cs, cs[k]) == CountOf(cs, cs[j]) ==> j <= k;
        Some(cs[j])
  }
}
