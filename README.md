# Zone aggregation engine of the waste-reporting service

This project models the core of a service that collects geotagged photos of
waste and folds them into spatial "zones", each with a running waste level, so
that a map can show hotspots. It models two files.

- `database.py`, the engine. A `photos` table and a `zones` table, kept in
  memory as two sequences in id order. `add_photo` inserts a photo and then
  calls `update_zone`. `update_zone` looks for the first zone whose square cell
  holds the point (`|Δlat| < r` and `|Δlng| < r`). If one is found, its count
  goes up by one and its level becomes a truncated running average. If none
  is found, it opens a new zone centred on the point. The module also models
  the read-only queries: all photos, photos in a bounding box, a photo by id,
  all zones, and the zone for a point.
- `app.py`, the request side in front of the engine. It has the upload
  file-name check `allowed_file`, the choice `get_photos` makes between the
  bounding-box query and the full listing, and the fixed order of the four
  checks at the top of `upload_photo`. Those checks all run before anything is
  saved or written.

Files:

- `sorting.dfy` (module `Sorting`): a sort into non-increasing key order. It
  models `ORDER BY … DESC`, which gives no order among equal keys, so only
  sortedness and permutation are stated.
- `database.dfy` (module `Database`): the row datatypes and the table
  invariants. Each operation is a function of the tables: `UpdatedZones` for
  `update_zone`, `Ingest` for `add_photo`, `Replay` for a sequence of
  `add_photo` calls, plus the queries. The lemmas state the engine's
  invariants. The class `Store` changes its two tables in place with the
  methods `AddPhoto` and `UpdateZone`, each proved against the function that
  specifies it.
- `webapp.dfy` (module `WebApp`): `allowed_file`, `get_photos`, the upload
  validation, and the `upload_photo` handler as a method on a `Store`.

Modelling choices:

- Latitude, longitude, severity and confidence are exact `real`s.
- Python's `int()` on a float is truncation toward zero (`Trunc`). For the
  non-negative values the engine sees, that equals `.Floor`.
- Timestamps are integers. The store keeps `datetime.now().isoformat()` text,
  and the text order of that text is the time order. The two clock reads of
  one `add_photo` call (the photo's and the zone's) are parameters.
- Ids: both tables use `AUTOINCREMENT` and never delete a row, so the row at
  index `i` has id `i + 1`. The row `fetchone` returns from an unordered
  query is taken to be the one with the lowest id.
- The containment queries compare against the `radius` argument (default
  0.005), never against the stored `radius` column.

Where the code and the system's design description disagree, the model
follows the code:

- Running level. The design describes `floor((level·count + s)/(count + 1))`.
  The code increments the count before using it (`database.py:179-183`), so it
  computes `int((level·(count+1) + s)/(count+2))`. `RunningLevelExamples`
  shows an input where the two formulas agree (level 8, count 1, severity 4
  gives 6 under both). It also shows one where they differ (level 10, count 1,
  severity 0 gives 6 in the code, 5 in the design).
- Count versus photos in the cell. The design says a zone's count equals the
  number of reports inside its cell. The code does not keep that. Cells
  overlap and the first match takes the report. `CountIsNotCellPopulation`
  gives three reports that leave zone 2 with count 1 while two stored photos
  lie inside its cell. What the code does keep is that the counts of all zones
  add up to the number of photos, and every photo lies inside some zone's cell
  (`Consistent`).
- Zone order. The design breaks ties in the zone listing by last update. The
  code sorts by `waste_level DESC` alone, so no tie order is stated.
- Verification flag. The design has three states. The code stores a boolean
  `is_verified`, written as false on insertion.

## Model

| member | source | states |
|---|---|---|
| `Database.Trunc` | database.py:183 | `int()` truncates toward zero: for `x ≥ 0` the result is the integer `n ≥ 0` with `n ≤ x < n+1`, and for `x < 0` the integer `n ≤ 0` with `x ≤ n < x+1` |
| `Database.RunningLevelInRange` | database.py:179-183 | if the old level and the severity are in [0, 10] and the count is at least 1, the level written back is in [0, 10] |
| `Database.RunningLevelIsFloor` | database.py:179-183 | for non-negative inputs the new level is `floor((level·(count+1) + severity)/(count+2))`, with the count incremented before use |
| `Database.RunningLevelExamples` | database.py:179-183 | level 8, count 1, severity 4 gives 6 both as written and as designed; level 10, count 1, severity 0 gives 6 as written and 5 as designed |
| `Database.FirstContaining` | database.py:166-172 | the lookup finds nothing iff no zone's strict square cell holds the point; otherwise it finds the lowest-id zone whose cell holds it |
| `Database.FirstMatchUnique` | database.py:172 | `fetchone` on the id-ordered containment query determines one zone: two first matches are the same index |
| `Database.AssignedIndex` | database.py:172-195 | the zone a report is counted in is an existing zone exactly when some cell holds the point, and then it is the first containing zone in id order (the row `fetchone` returns and `update_zone` changes); otherwise it is the new last zone |
| `Database.UpdatedZones` | database.py:160-198 | `update_zone` keeps every count at least 1 and keeps ids sequential; every earlier zone keeps its id, centre and radius; at most one zone is added |
| `Database.NewZoneWhenNoCellMatches` | database.py:190-195 | if no cell holds the point, exactly one zone is appended and the earlier zones are unchanged; the new zone has a fresh id, centre exactly the point, the radius argument, level `floor(severity)` for a non-negative severity, count 1 and the given time |
| `Database.MatchedZoneUpdatedInPlace` | database.py:175-189 | if zone k is the first match, no zone is added and every other zone is unchanged; zone k keeps its id, centre and radius, gains one in count, takes the running level and the given time |
| `Database.UpdatedZonesKeepsLevelsInRange` | database.py:181-195 | for a severity in [0, 10], levels in [0, 10] stay in [0, 10] after `update_zone` |
| `Database.UpdatedZonesCountsOnePhoto` | database.py:179-195 | each `update_zone` adds exactly one to the sum of all zones' counts |
| `Database.StableKeepsCover` | database.py:185-195 | centres are never rewritten, so a point inside some zone's cell stays inside some zone's cell |
| `Database.UpdatedZonesFindsAssignedZone` | database.py:166-195 | with a positive radius, looking the point up again after `update_zone` finds the zone the report was counted in, as the first match |
| `Database.Ingest` | database.py:51-71 | `add_photo` appends exactly one photo and keeps the earlier photos; zone counts stay at least 1; no zone moves and at most one is added |
| `Database.IngestReadBack` | database.py:51-71 | the id `add_photo` returns belongs to no earlier photo; `get_photo_by_id` on it returns a row with the inputs' fields and `is_verified` false |
| `Database.IngestKeepsConsistent` | database.py:51-71 | `add_photo` keeps ids sequential and counts positive; it keeps the sum of the counts equal to the number of photos; every photo stays inside some zone's cell at the default radius |
| `Database.Replay` | database.py:51-71 | a sequence of `add_photo` calls keeps every zone's count at least 1 |
| `Database.ReplayKeepsInvariants` | database.py:51-71 | for any sequence of `add_photo` calls with severities in [0, 10]: the tables stay consistent; levels stay in [0, 10]; one photo is added per call; zones grow by at most one per call, and none moves |
| `Database.CountIsNotCellPopulation` | database.py:166-195 | three reports leave zone 2 with count 1 while two stored photos lie inside its cell: the count is reports counted, not photos in the cell |
| `Database.AllPhotos` | database.py:73-99 | `get_all_photos` returns a permutation of the photos table in non-increasing timestamp order |
| `Database.FilterInBounds` | database.py:106-111 | the `WHERE` clause keeps exactly the photos with `south ≤ lat ≤ north` and `west ≤ lng ≤ east`, and no row more often than it is stored |
| `Database.PhotosInBounds` | database.py:101-128 | `get_photos_in_bounds` returns a photo iff it is stored and inside the inclusive box (both directions); no row is duplicated; newest first |
| `Database.PhotoById` | database.py:130-158 | `get_photo_by_id` returns None iff no photo has that id; otherwise it returns a stored photo with that id |
| `Database.AllZones` | database.py:200-224 | `get_all_zones` returns a permutation of the zones table in non-increasing `waste_level` order |
| `Database.ZoneByLocation` | database.py:226-252 | `get_zone_by_location` returns None iff no zone's strict cell holds the point; otherwise the first containing zone in id order |
| `Sorting.InsertDesc` | database.py:81 | inserting into a list sorted by non-increasing key keeps it sorted, and adds exactly the one element |
| `Sorting.SortDesc` | database.py:78-82 | `ORDER BY … DESC` yields a permutation of its input in non-increasing key order |
| `Database.Store.constructor` | database.py:14-40 | freshly created tables are empty and consistent |
| `Database.Store.UpdateZone` | database.py:160-198 | changes only the zones table, as `UpdatedZones` says; adds one to the sum of the counts; keeps levels in [0, 10] for a severity in [0, 10] |
| `Database.Store.AddPhoto` | database.py:51-71 | the tables become `Ingest` of the old ones; the returned id is `|photos|+1` and is fresh; reading it back gives the inserted row; consistency and levels in [0, 10] are preserved |
| `WebApp.LastIndexOf` | app.py:25 | gives None iff the character is absent; otherwise an index holding it with none of it after |
| `WebApp.Extension` | app.py:25 | `rsplit('.', 1)[1]`: None iff the name has no dot; otherwise the dot-free suffix right after the last dot |
| `WebApp.AllowedFile` | app.py:23-25 | an accepted name is non-empty and contains a dot |
| `WebApp.AllowedFileNeedsDot` | app.py:24 | a name without a dot is refused |
| `WebApp.AllowedFileBySuffix` | app.py:23-25 | a name `stem.ext`, where `ext` has no dot and the stem may hold any dots, is accepted iff the lower-cased `ext` is png, jpg or jpeg |
| `WebApp.AllowedFileByLastDot` | app.py:23-25 | any name containing a dot is accepted iff the lower-cased text after its last dot is png, jpg or jpeg |
| `WebApp.LastExtensionDecides` | app.py:25 | "a.png.exe" is refused and "a.exe.png" accepted |
| `WebApp.UpperCaseExtensionAccepted` | app.py:25 | "photo.JPG" is accepted: the comparison ignores case |
| `WebApp.EmptyExtensionRejected` | app.py:14 | "a." is refused: the empty extension is not in the allowed set |
| `WebApp.GetPhotos` | app.py:81-94 | if any of north, south, east, west is missing, every photo is returned, newest first; if all four are numeric, exactly the photos inside the inclusive box are returned, newest first; a non-numeric bound fails the request |
| `WebApp.ValidateUpload` | app.py:113-128 | rejections come in a fixed order: no photo part, then empty file name, then a disallowed extension, then a missing or non-numeric latitude or longitude; each fires iff every earlier check passed; on acceptance the coordinates are the parsed form values |
| `WebApp.UploadPhoto` | app.py:111-166 | a rejected upload answers 400 with its message and leaves both tables unchanged; an accepted one performs exactly one `add_photo`, returns the new id, and reports the zone the photo was counted in, which contains the point |

## Left out

- SQLite plumbing: `init_db`, `get_db_connection` and the row-to-dict
  copying. There is no domain logic in them. `create_demo_data` is an empty
  stub.
- Transactions and locking. The photo `INSERT` (database.py:58-61) opens an
  implicit transaction on `add_photo`'s connection and holds SQLite's write
  lock until the commit at database.py:68. `update_zone` then writes through a
  second connection (database.py:162, 185-195). That nested write conflicts
  with the outer, still uncommitted insert within the same call: under
  SQLite's default rollback journal it waits out the 5-second busy timeout,
  raises `OperationalError` ("database is locked"), and neither write is
  committed. The model assumes both writes succeed as one sequential step.
  Lost updates under concurrent uploads are not modelled either.
- Clocks: `datetime.now()` is replaced by the parameters `photoTime` and
  `zoneTime`.
- IEEE floating point. Coordinates, severities and the average are exact
  reals, so rounding of the float division is not modelled. Nor are the
  special values: `float()` also accepts "nan", "inf" and "-inf", which
  `FieldValue.Numeric(real)` cannot represent. Such a value passes the
  upload checks in the source; a NaN coordinate is stored by SQLite as NULL
  and then fails the `NOT NULL` constraint of the photos table.
- Ids after a failed insert. With AUTOINCREMENT a rolled-back insert can skip
  an id. The model assumes every insert succeeds, so the id equals the row
  position.
- Order among equal keys. `ORDER BY timestamp DESC` and
  `ORDER BY waste_level DESC` give none. The model's sort picks one order,
  and its contracts state only sortedness and permutation.
- `analyze_waste_image`. It uses OpenCV colour masks and float pixel ratios.
  Its result enters the handler as the `Analysis` parameter.
- File storage: the uuid, `secure_filename` and `file.save`. The saved path
  is a parameter of `UploadPhoto`.
- Flask and SocketIO: routing, `jsonify`, the `new_photo` emit (its zone
  payload is returned instead), the `index`, `get_photo`, `get_zones` and
  `uploaded_file` routes, and the connect and disconnect handlers.
- `float()` parsing. Form and query values are taken as already classified
  by whether `float()` accepts them (`FieldValue`). A missing key behaves
  like a non-numeric one, since `float(None)` raises `TypeError`.
- `file.filename` being None. A filename is always a string here.
- `str.lower` beyond ASCII. No other character lowers to a letter of png,
  jpg or jpeg, so `AllowedFile` is unaffected.
- `generate_demo_data.py`: random demo data generation and file copying.
- `swachhata_sentinel/app.py` and `swachhata_sentinel/routes/upload.py`:
  FastAPI and SQLAlchemy wiring around collaborators whose code is not part
  of this model.
