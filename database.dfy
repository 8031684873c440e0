/**
 * The zone aggregation engine of database.py: a photos table and a zones
 * table, the insertion path (add_photo, which calls update_zone) and the
 * read-only queries over both tables.
 *
 * The two SQLite tables become two sequences kept in id order. Rows are
 * never deleted and both tables use AUTOINCREMENT, so the row at index i
 * has id i + 1, and "the first row fetchone returns" is the lowest index.
 */
module Database {
  import opened Sorting

  datatype Option<T> = None | Some(value: T)

  /**
   * A point in time. The store keeps the text of datetime.now().isoformat(),
   * whose text order is the order of the instants, so an integer stands in
   * for it. Clock reads are parameters of the operations.
   */
  type Timestamp = int

  /** The radius add_photo hands to update_zone, and the query default. */
  const DefaultRadius: real := 0.005

  /** A row of the photos table. */
  datatype Photo = Photo(
    id: int,
    imagePath: string,
    latitude: real,
    longitude: real,
    timestamp: Timestamp,
    wasteCategory: string,
    severityScore: real,
    confidence: real,
    isVerified: bool)

  /** A row of the zones table. */
  datatype Zone = Zone(
    id: int,
    centerLat: real,
    centerLng: real,
    radius: real,
    wasteLevel: int,
    photoCount: int,
    lastUpdated: Timestamp)

  /** The whole database: both tables in id order. */
  datatype Tables = Tables(photos: seq<Photo>, zones: seq<Zone>)

  /** The arguments of one add_photo call, with the two clock reads it makes. */
  datatype Report = Report(
    imagePath: string,
    latitude: real,
    longitude: real,
    wasteCategory: string,
    severityScore: real,
    confidence: real,
    photoTime: Timestamp,
    zoneTime: Timestamp)

  // ---------------------------------------------------------------------
  // Arithmetic of update_zone
  // ---------------------------------------------------------------------

  function Abs(x: real): real {
    if x < 0.0 then -x else x
  }

  /** Python's int() on a float: truncation toward zero. */
  function Trunc(x: real): (n: int)
    ensures 0.0 <= x ==> 0 <= n && n as real <= x < n as real + 1.0
    ensures x < 0.0 ==> n <= 0 && x <= n as real < x + 1.0
  {
    if x >= 0.0 then x.Floor else -((-x).Floor)
  }

  /**
   * The level update_zone writes back. The stored count is incremented
   * before it is used, so the old level is weighted by count + 1 and the
   * sum is divided by count + 2.
   */
  function RunningLevel(level: int, count: int, severity: real): int
    requires count >= 1
  {
    Trunc(RunningAverage(level, count, severity))
  }

  function RunningAverage(level: int, count: int, severity: real): real
    requires count >= 1
  {
    (level as real * (count + 1) as real + severity) / (count + 2) as real
  }

  /** The weighted average as the design describes it: old level weighted by the old count. */
  function DesignedLevel(level: int, count: int, severity: real): int
    requires count >= 1
  {
    Trunc((level as real * count as real + severity) / (count + 1) as real)
  }

  lemma TruncInRange(x: real)
    requires 0.0 <= x <= 10.0
    ensures 0 <= Trunc(x) <= 10
  {
  }

  /** A quotient of a numerator in [0, bound * d] by a positive d lies in [0, bound]. */
  lemma QuotientInRange(num: real, d: real, bound: real)
    requires d > 0.0 && 0.0 <= num <= bound * d
    ensures 0.0 <= num / d <= bound
  {
    var q := num / d;
    assert q * d == num;
    if q > bound {
      assert q * d > bound * d;
    }
  }

  lemma ProductInRange(x: real, c: real)
    requires 0.0 <= x <= 10.0 && 0.0 <= c
    ensures 0.0 <= x * c <= 10.0 * c
  {
  }

  /** Levels and severities in [0, 10] keep the running level in [0, 10]. */
  lemma RunningLevelInRange(level: int, count: int, severity: real)
    requires 0 <= level <= 10 && count >= 1 && 0.0 <= severity <= 10.0
    ensures 0 <= RunningLevel(level, count, severity) <= 10
  {
    var c := (count + 1) as real;
    var d := (count + 2) as real;
    var prod := level as real * c;
    ProductInRange(level as real, c);
    assert 10.0 * d == 10.0 * c + 10.0;
    var num := prod + severity;
    assert num <= 10.0 * d;
    QuotientInRange(num, d, 10.0);
    assert RunningAverage(level, count, severity) == num / d;
    TruncInRange(RunningAverage(level, count, severity));
  }

  /** For non-negative inputs the running level is the floor of the weighted average. */
  lemma RunningLevelIsFloor(level: int, count: int, severity: real)
    requires 0 <= level && count >= 1 && 0.0 <= severity
    ensures RunningLevel(level, count, severity)
         == ((level as real * (count + 1) as real + severity) / (count + 2) as real).Floor
  {
    var d := (count + 2) as real;
    var num := level as real * (count + 1) as real + severity;
    assert 0.0 <= level as real * (count + 1) as real;
    assert 0.0 <= num / d;
  }

  /**
   * Where the two formulas agree and where they part: level 8, count 1,
   * severity 4 gives 6 under both; level 10, count 1, severity 0 gives 6
   * as written (20 / 3) but 5 as designed (10 / 2).
   */
  lemma RunningLevelExamples()
    ensures RunningLevel(8, 1, 4.0) == 6 && DesignedLevel(8, 1, 4.0) == 6
    ensures RunningLevel(10, 1, 0.0) == 6 && DesignedLevel(10, 1, 0.0) == 5
  {
    assert (8.0 * 2.0 + 4.0) / 3.0 == 20.0 / 3.0;
    assert 6.0 <= 20.0 / 3.0 < 7.0;
    assert (8.0 * 1.0 + 4.0) / 2.0 == 6.0;
    assert (10.0 * 2.0 + 0.0) / 3.0 == 20.0 / 3.0;
    assert (10.0 * 1.0 + 0.0) / 2.0 == 5.0;
  }

  // ---------------------------------------------------------------------
  // Zone assignment: the first zone whose square cell holds the point
  // ---------------------------------------------------------------------

  /** The WHERE clause of update_zone and get_zone_by_location: a strict square test against `radius`. */
  predicate InCell(z: Zone, latitude: real, longitude: real, radius: real) {
    Abs(z.centerLat - latitude) < radius && Abs(z.centerLng - longitude) < radius
  }

  /** Index `k` holds the first zone, in id order, whose cell contains the point. */
  predicate IsFirstMatch(zones: seq<Zone>, k: int, latitude: real, longitude: real, radius: real) {
    && 0 <= k < |zones|
    && InCell(zones[k], latitude, longitude, radius)
    && forall j :: 0 <= j < k ==> !InCell(zones[j], latitude, longitude, radius)
  }

  predicate InSomeCell(zones: seq<Zone>, latitude: real, longitude: real, radius: real) {
    exists j :: 0 <= j < |zones| && InCell(zones[j], latitude, longitude, radius)
  }

  /** The row fetchone returns for the containment query, as an index. */
  function FirstContaining(zones: seq<Zone>, latitude: real, longitude: real, radius: real): (r: Option<nat>)
    ensures r.None? <==> forall j :: 0 <= j < |zones| ==> !InCell(zones[j], latitude, longitude, radius)
    ensures r.Some? ==> IsFirstMatch(zones, r.value, latitude, longitude, radius)
  {
    if zones == [] then
      None
    else if InCell(zones[0], latitude, longitude, radius) then
      Some(0)
    else
      match FirstContaining(zones[1..], latitude, longitude, radius)
      case None => None
      case Some(k) => Some(k + 1)
  }

  /** There is only one first match. */
  lemma FirstMatchUnique(zones: seq<Zone>, k: int, k': int, latitude: real, longitude: real, radius: real)
    requires IsFirstMatch(zones, k, latitude, longitude, radius)
    requires IsFirstMatch(zones, k', latitude, longitude, radius)
    ensures k == k'
  {
  }

  // ---------------------------------------------------------------------
  // Table invariants
  // ---------------------------------------------------------------------

  predicate PhotoIdsSequential(photos: seq<Photo>) {
    forall i :: 0 <= i < |photos| ==> photos[i].id == i + 1
  }

  predicate ZoneIdsSequential(zones: seq<Zone>) {
    forall i :: 0 <= i < |zones| ==> zones[i].id == i + 1
  }

  /** Zones are only ever created with photo_count 1 and then incremented. */
  predicate CountsPositive(zones: seq<Zone>) {
    forall i :: 0 <= i < |zones| ==> zones[i].photoCount >= 1
  }

  predicate LevelsInRange(zones: seq<Zone>) {
    forall i :: 0 <= i < |zones| ==> 0 <= zones[i].wasteLevel <= 10
  }

  /** Every earlier zone is still there, with the same id, centre and radius. */
  predicate ZonesStable(before: seq<Zone>, after: seq<Zone>) {
    && |before| <= |after|
    && forall j :: 0 <= j < |before| ==>
         && after[j].id == before[j].id
         && after[j].centerLat == before[j].centerLat
         && after[j].centerLng == before[j].centerLng
         && after[j].radius == before[j].radius
  }

  /** The sum of all photo_count columns. */
  function SumCounts(zones: seq<Zone>): int {
    if zones == [] then 0 else SumCounts(zones[..|zones| - 1]) + zones[|zones| - 1].photoCount
  }

  lemma SumCountsAppend(zones: seq<Zone>, z: Zone)
    ensures SumCounts(zones + [z]) == SumCounts(zones) + z.photoCount
  {
    assert (zones + [z])[..|zones|] == zones;
  }

  lemma {:induction false} SumCountsUpdate(zones: seq<Zone>, k: int, z: Zone)
    requires 0 <= k < |zones|
    ensures SumCounts(zones[k := z]) == SumCounts(zones) - zones[k].photoCount + z.photoCount
  {
    var n := |zones| - 1;
    if k == n {
      assert zones[k := z][..n] == zones[..n];
    } else {
      assert zones[k := z][..n] == zones[..n][k := z];
      SumCountsUpdate(zones[..n], k, z);
    }
  }

  /**
   * What the engine keeps true of the two tables: sequential ids, positive
   * counts, one unit of photo_count per stored photo, and every photo
   * inside the cell of some zone at the default radius.
   */
  ghost predicate Consistent(t: Tables) {
    && PhotoIdsSequential(t.photos)
    && ZoneIdsSequential(t.zones)
    && CountsPositive(t.zones)
    && SumCounts(t.zones) == |t.photos|
    && forall i :: 0 <= i < |t.photos| ==>
         InSomeCell(t.zones, t.photos[i].latitude, t.photos[i].longitude, DefaultRadius)
  }

  // ---------------------------------------------------------------------
  // update_zone and add_photo as functions of the tables
  // ---------------------------------------------------------------------

  /** The zones table after update_zone(latitude, longitude, severityScore, radius) at time `now`. */
  function UpdatedZones(zones: seq<Zone>, latitude: real, longitude: real, severityScore: real,
                        radius: real, now: Timestamp): (r: seq<Zone>)
    requires CountsPositive(zones)
    ensures CountsPositive(r)
    ensures ZonesStable(zones, r) && |r| <= |zones| + 1
    ensures ZoneIdsSequential(zones) ==> ZoneIdsSequential(r)
  {
    match FirstContaining(zones, latitude, longitude, radius)
    case None =>
      zones + [Zone(|zones| + 1, latitude, longitude, radius, Trunc(severityScore), 1, now)]
    case Some(k) =>
      zones[k := zones[k].(wasteLevel := RunningLevel(zones[k].wasteLevel, zones[k].photoCount, severityScore),
                           photoCount := zones[k].photoCount + 1,
                           lastUpdated := now)]
  }

  /** The index of the zone a report at this point is counted in: the first match, or the new zone. */
  function AssignedIndex(zones: seq<Zone>, latitude: real, longitude: real, radius: real): (k: nat)
    ensures k <= |zones|
    ensures k < |zones| <==> InSomeCell(zones, latitude, longitude, radius)
    ensures k < |zones| ==> IsFirstMatch(zones, k, latitude, longitude, radius)
  {
    match FirstContaining(zones, latitude, longitude, radius)
    case None => |zones|
    case Some(k) => k
  }

  /** When no cell holds the point, one zone is appended, centred on it, and nothing else changes. */
  lemma NewZoneWhenNoCellMatches(zones: seq<Zone>, latitude: real, longitude: real, severityScore: real,
                                 radius: real, now: Timestamp)
    requires CountsPositive(zones) && ZoneIdsSequential(zones)
    requires forall j :: 0 <= j < |zones| ==> !InCell(zones[j], latitude, longitude, radius)
    ensures var r := UpdatedZones(zones, latitude, longitude, severityScore, radius, now);
      && |r| == |zones| + 1
      && r[..|zones|] == zones
      && r[|zones|].id == |zones| + 1
      && (forall j :: 0 <= j < |zones| ==> zones[j].id != r[|zones|].id)
      && r[|zones|].centerLat == latitude && r[|zones|].centerLng == longitude
      && r[|zones|].radius == radius
      && (0.0 <= severityScore ==> r[|zones|].wasteLevel == severityScore.Floor)
      && r[|zones|].photoCount == 1
      && r[|zones|].lastUpdated == now
  {
    var r := UpdatedZones(zones, latitude, longitude, severityScore, radius, now);
    assert r == zones + [Zone(|zones| + 1, latitude, longitude, radius, Trunc(severityScore), 1, now)];
  }

  /** When zone k is the first match, only zone k changes: one more photo, the running level, the new time. */
  lemma MatchedZoneUpdatedInPlace(zones: seq<Zone>, latitude: real, longitude: real, severityScore: real,
                                  radius: real, now: Timestamp, k: int)
    requires CountsPositive(zones)
    requires IsFirstMatch(zones, k, latitude, longitude, radius)
    ensures var r := UpdatedZones(zones, latitude, longitude, severityScore, radius, now);
      && |r| == |zones|
      && (forall j :: 0 <= j < |zones| && j != k ==> r[j] == zones[j])
      && r[k].id == zones[k].id
      && r[k].centerLat == zones[k].centerLat && r[k].centerLng == zones[k].centerLng
      && r[k].radius == zones[k].radius
      && r[k].photoCount == zones[k].photoCount + 1
      && r[k].wasteLevel == RunningLevel(zones[k].wasteLevel, zones[k].photoCount, severityScore)
      && r[k].lastUpdated == now
  {
    var found := FirstContaining(zones, latitude, longitude, radius);
    FirstMatchUnique(zones, found.value, k, latitude, longitude, radius);
  }

  /** Levels in [0, 10] stay there for a severity in [0, 10]. */
  lemma UpdatedZonesKeepsLevelsInRange(zones: seq<Zone>, latitude: real, longitude: real, severityScore: real,
                                       radius: real, now: Timestamp)
    requires CountsPositive(zones) && LevelsInRange(zones)
    requires 0.0 <= severityScore <= 10.0
    ensures LevelsInRange(UpdatedZones(zones, latitude, longitude, severityScore, radius, now))
  {
    match FirstContaining(zones, latitude, longitude, radius)
    case None =>
      TruncInRange(severityScore);
    case Some(k) =>
      RunningLevelInRange(zones[k].wasteLevel, zones[k].photoCount, severityScore);
  }

  /** Every call adds exactly one to the total photo_count. */
  lemma UpdatedZonesCountsOnePhoto(zones: seq<Zone>, latitude: real, longitude: real, severityScore: real,
                                   radius: real, now: Timestamp)
    requires CountsPositive(zones)
    ensures SumCounts(UpdatedZones(zones, latitude, longitude, severityScore, radius, now)) == SumCounts(zones) + 1
  {
    match FirstContaining(zones, latitude, longitude, radius)
    case None =>
      SumCountsAppend(zones, Zone(|zones| + 1, latitude, longitude, radius, Trunc(severityScore), 1, now));
    case Some(k) =>
      var z := zones[k].(wasteLevel := RunningLevel(zones[k].wasteLevel, zones[k].photoCount, severityScore),
                         photoCount := zones[k].photoCount + 1,
                         lastUpdated := now);
      SumCountsUpdate(zones, k, z);
  }

  /** Centres never move, so a point inside some cell stays inside some cell. */
  lemma StableKeepsCover(before: seq<Zone>, after: seq<Zone>, latitude: real, longitude: real, radius: real)
    requires ZonesStable(before, after)
    requires InSomeCell(before, latitude, longitude, radius)
    ensures InSomeCell(after, latitude, longitude, radius)
  {
    var j :| 0 <= j < |before| && InCell(before[j], latitude, longitude, radius);
    assert InCell(after[j], latitude, longitude, radius);
  }

  /**
   * After update_zone, looking the point up again finds the zone the report
   * was counted in: the first match before the update, or the new zone.
   */
  lemma UpdatedZonesFindsAssignedZone(zones: seq<Zone>, latitude: real, longitude: real, severityScore: real,
                                      radius: real, now: Timestamp)
    requires CountsPositive(zones)
    requires radius > 0.0
    ensures var r := UpdatedZones(zones, latitude, longitude, severityScore, radius, now);
      && AssignedIndex(zones, latitude, longitude, radius) < |r|
      && IsFirstMatch(r, AssignedIndex(zones, latitude, longitude, radius), latitude, longitude, radius)
  {
    var r := UpdatedZones(zones, latitude, longitude, severityScore, radius, now);
    match FirstContaining(zones, latitude, longitude, radius)
    case None =>
      assert r[..|zones|] == zones;
      assert forall j :: 0 <= j < |zones| ==> r[j] == zones[j];
      assert Abs(r[|zones|].centerLat - latitude) == 0.0;
    case Some(k) =>
      assert forall j :: 0 <= j < |zones| ==> r[j].centerLat == zones[j].centerLat && r[j].centerLng == zones[j].centerLng;
  }

  /** add_photo: insert the photo (unverified, next id), then update_zone at the default radius. */
  function Ingest(t: Tables, report: Report): (t': Tables)
    requires CountsPositive(t.zones)
    ensures |t'.photos| == |t.photos| + 1 && t'.photos[..|t.photos|] == t.photos
    ensures CountsPositive(t'.zones)
    ensures ZonesStable(t.zones, t'.zones) && |t'.zones| <= |t.zones| + 1
  {
    Tables(
      t.photos + [NewPhoto(|t.photos| + 1, report)],
      UpdatedZones(t.zones, report.latitude, report.longitude, report.severityScore, DefaultRadius, report.zoneTime))
  }

  /** The row add_photo inserts: the report's fields and is_verified false. */
  function NewPhoto(id: int, report: Report): Photo {
    Photo(id, report.imagePath, report.latitude, report.longitude, report.photoTime,
          report.wasteCategory, report.severityScore, report.confidence, false)
  }

  /** Read-after-write: the returned id is new, and get_photo_by_id on it gives back the inserted row. */
  lemma IngestReadBack(t: Tables, report: Report)
    requires CountsPositive(t.zones) && PhotoIdsSequential(t.photos)
    ensures forall p :: p in t.photos ==> p.id != |t.photos| + 1
    ensures PhotoById(Ingest(t, report).photos, |t.photos| + 1) == Some(NewPhoto(|t.photos| + 1, report))
  {
    var id := |t.photos| + 1;
    forall p | p in t.photos ensures p.id != id {
      var i :| 0 <= i < |t.photos| && t.photos[i] == p;
    }
  }

  /** add_photo keeps the tables consistent. */
  lemma IngestKeepsConsistent(t: Tables, report: Report)
    requires Consistent(t)
    ensures Consistent(Ingest(t, report))
  {
    var t' := Ingest(t, report);
    UpdatedZonesCountsOnePhoto(t.zones, report.latitude, report.longitude, report.severityScore,
                               DefaultRadius, report.zoneTime);
    UpdatedZonesFindsAssignedZone(t.zones, report.latitude, report.longitude, report.severityScore,
                                  DefaultRadius, report.zoneTime);
    var n := |t.photos|;
    forall i | 0 <= i < |t'.photos|
      ensures InSomeCell(t'.zones, t'.photos[i].latitude, t'.photos[i].longitude, DefaultRadius)
    {
      if i < n {
        assert t'.photos[i] == t.photos[i];
        StableKeepsCover(t.zones, t'.zones, t.photos[i].latitude, t.photos[i].longitude, DefaultRadius);
      } else {
        var k := AssignedIndex(t.zones, report.latitude, report.longitude, DefaultRadius);
        assert InCell(t'.zones[k], report.latitude, report.longitude, DefaultRadius);
      }
    }
  }

  /** The tables after a sequence of add_photo calls. */
  function Replay(t: Tables, reports: seq<Report>): (t': Tables)
    requires CountsPositive(t.zones)
    ensures CountsPositive(t'.zones)
    decreases |reports|
  {
    if reports == [] then t else Replay(Ingest(t, reports[0]), reports[1..])
  }

  const Empty: Tables := Tables([], [])

  /**
   * Across any sequence of add_photo calls with severities in [0, 10]: the
   * tables stay consistent, levels stay in [0, 10], one photo is added per
   * call, and the zone count grows by at most one per call with no zone moving.
   */
  lemma {:induction false} ReplayKeepsInvariants(t: Tables, reports: seq<Report>)
    requires Consistent(t) && LevelsInRange(t.zones)
    requires forall i :: 0 <= i < |reports| ==> 0.0 <= reports[i].severityScore <= 10.0
    ensures var t' := Replay(t, reports);
      && Consistent(t')
      && LevelsInRange(t'.zones)
      && |t'.photos| == |t.photos| + |reports|
      && |t'.zones| <= |t.zones| + |reports|
      && ZonesStable(t.zones, t'.zones)
    decreases |reports|
  {
    if reports != [] {
      var t1 := Ingest(t, reports[0]);
      IngestKeepsConsistent(t, reports[0]);
      UpdatedZonesKeepsLevelsInRange(t.zones, reports[0].latitude, reports[0].longitude,
                                     reports[0].severityScore, DefaultRadius, reports[0].zoneTime);
      ReplayKeepsInvariants(t1, reports[1..]);
    }
  }

  /**
   * The photo_count of a zone is the number of reports counted in it, not the
   * number of stored photos inside its cell: cells overlap and the first match
   * wins. Three reports: (0, 0) opens zone 1, (0.006, 0) opens zone 2, and
   * (0.004, 0) lies in both cells but is counted in zone 1.
   */
  lemma CountIsNotCellPopulation()
    ensures var t := Replay(Empty, [
              Report("a", 0.0, 0.0, "mixed", 5.0, 0.5, 1, 1),
              Report("b", 0.006, 0.0, "mixed", 5.0, 0.5, 2, 2),
              Report("c", 0.004, 0.0, "mixed", 5.0, 0.5, 3, 3)]);
      && |t.zones| == 2 && |t.photos| == 3
      && t.zones[1].photoCount == 1
      && InCell(t.zones[1], t.photos[1].latitude, t.photos[1].longitude, DefaultRadius)
      && InCell(t.zones[1], t.photos[2].latitude, t.photos[2].longitude, DefaultRadius)
  {
    var r1 := Report("a", 0.0, 0.0, "mixed", 5.0, 0.5, 1, 1);
    var r2 := Report("b", 0.006, 0.0, "mixed", 5.0, 0.5, 2, 2);
    var r3 := Report("c", 0.004, 0.0, "mixed", 5.0, 0.5, 3, 3);
    var z1 := Zone(1, 0.0, 0.0, DefaultRadius, 5, 1, 1);
    var z2 := Zone(2, 0.006, 0.0, DefaultRadius, 5, 1, 2);

    assert FirstContaining([], 0.0, 0.0, DefaultRadius) == None;
    var t1 := Ingest(Empty, r1);
    assert t1.zones == [z1];

    assert !InCell(z1, 0.006, 0.0, DefaultRadius);
    assert FirstContaining([z1], 0.006, 0.0, DefaultRadius) == None;
    var t2 := Ingest(t1, r2);
    assert t2.zones == [z1, z2];

    assert InCell(z1, 0.004, 0.0, DefaultRadius);
    assert FirstContaining([z1, z2], 0.004, 0.0, DefaultRadius) == Some(0);
    var t3 := Ingest(t2, r3);
    assert t3.zones[1] == z2;
    assert InCell(z2, 0.006, 0.0, DefaultRadius) && InCell(z2, 0.004, 0.0, DefaultRadius);

    assert Replay(t3, []) == t3;
    assert [r1, r2, r3][1..] == [r2, r3];
    assert [r2, r3][1..] == [r3];
    assert [r3][1..] == [];
    assert Replay(t2, [r3]) == t3;
    assert Replay(t1, [r2, r3]) == t3;
  }

  // ---------------------------------------------------------------------
  // Read-only queries
  // ---------------------------------------------------------------------

  function PhotoTime(p: Photo): int { p.timestamp }

  function ZoneLevel(z: Zone): int { z.wasteLevel }

  /** get_all_photos: every photo, newest first. */
  function AllPhotos(photos: seq<Photo>): (r: seq<Photo>)
    ensures multiset(r) == multiset(photos)
    ensures SortedDesc(r, PhotoTime)
  {
    SortDesc(photos, PhotoTime)
  }

  /** The WHERE clause of get_photos_in_bounds: inclusive on all four sides. */
  predicate InBounds(p: Photo, north: real, south: real, east: real, west: real) {
    south <= p.latitude <= north && west <= p.longitude <= east
  }

  function FilterInBounds(photos: seq<Photo>, north: real, south: real, east: real, west: real): (r: seq<Photo>)
    ensures forall p :: p in r <==> p in photos && InBounds(p, north, south, east, west)
    ensures multiset(r) <= multiset(photos)
  {
    if photos == [] then
      []
    else
      assert photos == [photos[0]] + photos[1..];
      (if InBounds(photos[0], north, south, east, west) then [photos[0]] else [])
        + FilterInBounds(photos[1..], north, south, east, west)
  }

  /** get_photos_in_bounds: exactly the photos inside the box, no row twice, newest first. */
  function PhotosInBounds(photos: seq<Photo>, north: real, south: real, east: real, west: real): (r: seq<Photo>)
    ensures forall p :: p in r <==> p in photos && InBounds(p, north, south, east, west)
    ensures multiset(r) <= multiset(photos)
    ensures SortedDesc(r, PhotoTime)
  {
    var inside := FilterInBounds(photos, north, south, east, west);
    var r := SortDesc(inside, PhotoTime);
    assert forall p :: p in r <==> p in multiset(inside);
    r
  }

  /** get_photo_by_id. */
  function PhotoById(photos: seq<Photo>, id: int): (r: Option<Photo>)
    ensures r.None? <==> forall p :: p in photos ==> p.id != id
    ensures r.Some? ==> r.value in photos && r.value.id == id
  {
    if photos == [] then
      None
    else if photos[0].id == id then
      Some(photos[0])
    else
      assert photos == [photos[0]] + photos[1..];
      PhotoById(photos[1..], id)
  }

  /** get_all_zones: every zone, highest waste level first; no order among equal levels. */
  function AllZones(zones: seq<Zone>): (r: seq<Zone>)
    ensures multiset(r) == multiset(zones)
    ensures SortedDesc(r, ZoneLevel)
  {
    SortDesc(zones, ZoneLevel)
  }

  /** get_zone_by_location: the first zone in id order whose cell holds the point, or None. */
  function ZoneByLocation(zones: seq<Zone>, latitude: real, longitude: real, radius: real): (r: Option<Zone>)
    ensures r.None? <==> forall j :: 0 <= j < |zones| ==> !InCell(zones[j], latitude, longitude, radius)
    ensures r.Some? ==> exists k :: IsFirstMatch(zones, k, latitude, longitude, radius) && r.value == zones[k]
  {
    match FirstContaining(zones, latitude, longitude, radius)
    case None => None
    case Some(k) => Some(zones[k])
  }

  // ---------------------------------------------------------------------
  // The store
  // ---------------------------------------------------------------------

  /** The database, whose two tables add_photo and update_zone change in place. */
  class Store {
    var photos: seq<Photo>
    var zones: seq<Zone>

    ghost predicate Valid()
      reads this
    {
      PhotoIdsSequential(photos) && ZoneIdsSequential(zones) && CountsPositive(zones)
    }

    function Contents(): Tables
      reads this
    {
      Tables(photos, zones)
    }

    /** Freshly initialised, empty tables. */
    constructor ()
      ensures Valid() && photos == [] && zones == []
      ensures Consistent(Contents()) && LevelsInRange(zones)
    {
      photos := [];
      zones := [];
    }

    /** update_zone: fold one severity into the first zone whose cell holds the point, or open a zone there. */
    method UpdateZone(latitude: real, longitude: real, severityScore: real, radius: real, now: Timestamp)
      requires Valid()
      modifies this
      ensures Valid()
      ensures photos == old(photos)
      ensures zones == UpdatedZones(old(zones), latitude, longitude, severityScore, radius, now)
      ensures SumCounts(zones) == old(SumCounts(zones)) + 1
      ensures 0.0 <= severityScore <= 10.0 && old(LevelsInRange(zones)) ==> LevelsInRange(zones)
    {
      ghost var before := zones;
      var found := FirstContaining(zones, latitude, longitude, radius);
      match found {
        case None =>
          zones := zones + [Zone(|zones| + 1, latitude, longitude, radius, Trunc(severityScore), 1, now)];
        case Some(k) =>
          var zone := zones[k];
          var photoCount := zone.photoCount + 1;
          var newLevel := RunningLevel(zone.wasteLevel, zone.photoCount, severityScore);
          zones := zones[k := zone.(wasteLevel := newLevel, photoCount := photoCount, lastUpdated := now)];
      }
      assert zones == UpdatedZones(before, latitude, longitude, severityScore, radius, now);
      UpdatedZonesCountsOnePhoto(before, latitude, longitude, severityScore, radius, now);
      if 0.0 <= severityScore <= 10.0 && LevelsInRange(before) {
        UpdatedZonesKeepsLevelsInRange(before, latitude, longitude, severityScore, radius, now);
      }
    }

    /** add_photo: insert the report as an unverified photo, update the zones, return the new id. */
    method AddPhoto(imagePath: string, latitude: real, longitude: real, wasteCategory: string,
                    severityScore: real, confidence: real, photoTime: Timestamp, zoneTime: Timestamp)
      returns (photoId: int)
      requires Valid()
      modifies this
      ensures Valid()
      ensures Contents() == Ingest(old(Contents()),
        Report(imagePath, latitude, longitude, wasteCategory, severityScore, confidence, photoTime, zoneTime))
      ensures photoId == |old(photos)| + 1
      ensures forall p :: p in old(photos) ==> p.id != photoId
      ensures PhotoById(photos, photoId) == Some(Photo(photoId, imagePath, latitude, longitude, photoTime,
                                                       wasteCategory, severityScore, confidence, false))
      ensures old(Consistent(Contents())) ==> Consistent(Contents())
      ensures 0.0 <= severityScore <= 10.0 && old(LevelsInRange(zones)) ==> LevelsInRange(zones)
    {
      var report := Report(imagePath, latitude, longitude, wasteCategory, severityScore, confidence, photoTime, zoneTime);
      ghost var before := Contents();
      IngestReadBack(before, report);
      if Consistent(before) {
        IngestKeepsConsistent(before, report);
      }
      photoId := |photos| + 1;
      photos := photos + [Photo(photoId, imagePath, latitude, longitude, photoTime,
                                wasteCategory, severityScore, confidence, false)];
      UpdateZone(latitude, longitude, severityScore, DefaultRadius, zoneTime);
    }
  }
}
