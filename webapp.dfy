/**
 * The request-side logic of app.py that sits in front of the store: the
 * upload file-name check (allowed_file), the choice between the bounding-box
 * query and the full listing (get_photos), and the order of the checks at
 * the top of upload_photo before anything is saved or written.
 */
module WebApp {
  import opened Database
  import opened Sorting

  /** ALLOWED_EXTENSIONS. */
  const AllowedExtensions: set<string> := {"png", "jpg", "jpeg"}

  /** The position of the last `c` in `s`, or None when `s` holds none. */
  function LastIndexOf(s: string, c: char): (r: Option<nat>)
    ensures r.None? <==> c !in s
    ensures r.Some? ==> r.value < |s| && s[r.value] == c && forall j :: r.value < j < |s| ==> s[j] != c
  {
    if s == [] then
      None
    else if s[|s| - 1] == c then
      Some(|s| - 1)
    else
      assert s == s[..|s| - 1] + [s[|s| - 1]];
      LastIndexOf(s[..|s| - 1], c)
  }

  /**
   * str.lower, on ASCII letters. No other character lowers to a letter of
   * "png", "jpg" or "jpeg", so membership in AllowedExtensions is unaffected.
   */
  function LowerChar(c: char): char {
    if 'A' <= c <= 'Z' then (c as int - 'A' as int + 'a' as int) as char else c
  }

  function Lower(s: string): string {
    seq(|s|, i requires 0 <= i < |s| => LowerChar(s[i]))
  }

  /** filename.rsplit('.', 1)[1]: the text after the last dot, when there is a dot. */
  function Extension(filename: string): (r: Option<string>)
    ensures r.None? <==> '.' !in filename
    ensures r.Some? ==> && '.' !in r.value
                        && |r.value| < |filename|
                        && filename[|filename| - |r.value| - 1] == '.'
                        && filename[|filename| - |r.value|..] == r.value
  {
    match LastIndexOf(filename, '.')
    case None => None
    case Some(i) =>
      var ext := filename[i + 1..];
      assert forall j :: 0 <= j < |ext| ==> ext[j] == filename[i + 1 + j];
      Some(ext)
  }

  /** allowed_file. */
  function AllowedFile(filename: string): (ok: bool)
    ensures ok ==> '.' in filename && filename != ""
  {
    '.' in filename && Lower(Extension(filename).value) in AllowedExtensions
  }

  /** A name without a dot is never allowed. */
  lemma AllowedFileNeedsDot(filename: string)
    requires '.' !in filename
    ensures !AllowedFile(filename)
  {
  }

  /**
   * Only the text after the LAST dot decides, case-insensitively; the stem
   * may hold any number of dots. AllowedFileByLastDot covers every name
   * with a dot.
   */
  lemma AllowedFileBySuffix(stem: string, ext: string)
    requires '.' !in ext
    ensures AllowedFile(stem + "." + ext) <==> Lower(ext) in AllowedExtensions
  {
    var name := stem + "." + ext;
    assert name[|stem|] == '.';
    var e := Extension(name).value;
    assert e == name[|stem| + 1..] == ext;
  }

  /** For any name with a dot, the lower-cased text after its last dot decides. */
  lemma AllowedFileByLastDot(filename: string)
    requires '.' in filename
    ensures var i := LastIndexOf(filename, '.').value;
      AllowedFile(filename) <==> Lower(filename[i + 1..]) in AllowedExtensions
  {
    var i := LastIndexOf(filename, '.').value;
    var stem, ext := filename[..i], filename[i + 1..];
    assert filename == stem + "." + ext;
    assert '.' !in ext by {
      forall j | 0 <= j < |ext| ensures ext[j] != '.' {
        assert ext[j] == filename[i + 1 + j];
      }
    }
    AllowedFileBySuffix(stem, ext);
  }

  /** Only the last extension counts: "a.png.exe" is refused and "a.exe.png" accepted. */
  lemma LastExtensionDecides()
    ensures !AllowedFile("a.png.exe")
    ensures AllowedFile("a.exe.png")
  {
    assert !AllowedFile("a.png.exe") by {
      assert "a.png.exe" == "a.png" + "." + "exe";
      AllowedFileBySuffix("a.png", "exe");
      assert Lower("exe") == "exe";
    }
    assert "a.exe.png" == "a.exe" + "." + "png";
    AllowedFileBySuffix("a.exe", "png");
    assert Lower("png") == "png";
  }

  /** The extension is compared in lower case: "photo.JPG" is accepted. */
  lemma UpperCaseExtensionAccepted()
    ensures AllowedFile("photo.JPG")
  {
    assert "photo.JPG" == "photo" + "." + "JPG";
    AllowedFileBySuffix("photo", "JPG");
    assert Lower("JPG") == "jpg";
  }

  /** A trailing dot leaves an empty extension: "a." is refused. */
  lemma EmptyExtensionRejected()
    ensures !AllowedFile("a.")
  {
    assert "a." == "a" + "." + "";
    AllowedFileBySuffix("a", "");
    assert Lower("") == "";
  }

  // ---------------------------------------------------------------------
  // Request parameters
  // ---------------------------------------------------------------------

  /**
   * A request argument or form field as float() sees it: text it accepts,
   * with the number it denotes, or text it rejects with ValueError.
   */
  datatype FieldValue = Numeric(value: real) | NotNumeric

  /** float(request.args.get(key)) or float(request.form.get(key)); a missing key raises TypeError. */
  function ParseNumber(fields: map<string, FieldValue>, key: string): Option<real> {
    if key in fields && fields[key].Numeric? then Some(fields[key].value) else None
  }

  predicate HasBoundingBox(args: map<string, FieldValue>) {
    "north" in args && "south" in args && "east" in args && "west" in args
  }

  /**
   * get_photos: the bounding-box query when all four of north, south, east
   * and west are present, the full listing otherwise. None stands for the
   * unhandled ValueError of a present but non-numeric bound.
   */
  function GetPhotos(args: map<string, FieldValue>, photos: seq<Photo>): (r: Option<seq<Photo>>)
    ensures !HasBoundingBox(args) ==>
              r.Some? && multiset(r.value) == multiset(photos) && SortedDesc(r.value, PhotoTime)
    ensures HasBoundingBox(args) && (forall key :: key in ["north", "south", "east", "west"] ==> args[key].Numeric?) ==>
              && r.Some? && SortedDesc(r.value, PhotoTime)
              && multiset(r.value) <= multiset(photos)
              && forall p :: p in r.value <==>
                   p in photos && InBounds(p, args["north"].value, args["south"].value, args["east"].value, args["west"].value)
    ensures HasBoundingBox(args) && (exists key :: key in ["north", "south", "east", "west"] && args[key].NotNumeric?) ==>
              r.None?
  {
    if HasBoundingBox(args) then
      var north := ParseNumber(args, "north");
      var south := ParseNumber(args, "south");
      var east := ParseNumber(args, "east");
      var west := ParseNumber(args, "west");
      if north.Some? && south.Some? && east.Some? && west.Some? then
        Some(PhotosInBounds(photos, north.value, south.value, east.value, west.value))
      else
        None
    else
      Some(AllPhotos(photos))
  }

  // ---------------------------------------------------------------------
  // upload_photo
  // ---------------------------------------------------------------------

  /** An uploaded file part; only its client-side name matters before saving. */
  datatype FilePart = FilePart(filename: string)

  datatype UploadRequest = UploadRequest(files: map<string, FilePart>, form: map<string, FieldValue>)

  /** The four rejections of upload_photo, each answered with status 400. */
  datatype UploadError = NoPhotoPart | NoSelectedFile | FileTypeNotAllowed | InvalidLocation

  const BadRequest: int := 400

  function ErrorMessage(e: UploadError): string {
    match e
    case NoPhotoPart => "No photo part"
    case NoSelectedFile => "No selected file"
    case FileTypeNotAllowed => "File type not allowed"
    case InvalidLocation => "Invalid location data"
  }

  datatype Location = Location(latitude: real, longitude: real)

  datatype Validated = Accept(location: Location) | Reject(error: UploadError)

  /**
   * The checks at the top of upload_photo, in their fixed order: the photo
   * part, then its file name, then its extension, then the coordinates.
   */
  function ValidateUpload(req: UploadRequest): (r: Validated)
    ensures r == Reject(NoPhotoPart) <==> "photo" !in req.files
    ensures r == Reject(NoSelectedFile) <==> "photo" in req.files && req.files["photo"].filename == ""
    ensures r == Reject(FileTypeNotAllowed) <==>
              && "photo" in req.files && req.files["photo"].filename != ""
              && !AllowedFile(req.files["photo"].filename)
    ensures r == Reject(InvalidLocation) <==>
              && "photo" in req.files && AllowedFile(req.files["photo"].filename)
              && (ParseNumber(req.form, "latitude").None? || ParseNumber(req.form, "longitude").None?)
    ensures r.Accept? ==>
              && "photo" in req.files && AllowedFile(req.files["photo"].filename)
              && "latitude" in req.form && req.form["latitude"] == Numeric(r.location.latitude)
              && "longitude" in req.form && req.form["longitude"] == Numeric(r.location.longitude)
  {
    if "photo" !in req.files then
      Reject(NoPhotoPart)
    else if req.files["photo"].filename == "" then
      Reject(NoSelectedFile)
    else if !AllowedFile(req.files["photo"].filename) then
      Reject(FileTypeNotAllowed)
    else
      var latitude := ParseNumber(req.form, "latitude");
      var longitude := ParseNumber(req.form, "longitude");
      if latitude.None? || longitude.None? then
        Reject(InvalidLocation)
      else
        Accept(Location(latitude.value, longitude.value))
  }

  /** What the classifier reported for the saved image. */
  datatype Analysis = Analysis(category: string, severity: real, confidence: real)

  /**
   * The reply of upload_photo. An accepted upload carries the new photo id
   * and the zone pushed to subscribers in the new_photo event.
   */
  datatype UploadResponse =
    | Rejected(status: int, message: string)
    | Accepted(photoId: int, analysis: Analysis, zone: Option<Zone>)

  /**
   * upload_photo. The saved path (uuid and secure_filename), the classifier's
   * analysis and the clock reads are inputs. A rejected request changes
   * nothing; an accepted one is one add_photo, after which the point is
   * looked up again and always found in the zone it was counted in.
   */
  method UploadPhoto(store: Store, req: UploadRequest, savedPath: string, analysis: Analysis,
                     photoTime: Timestamp, zoneTime: Timestamp)
    returns (resp: UploadResponse)
    requires store.Valid()
    modifies store
    ensures store.Valid()
    ensures resp.Rejected? <==> ValidateUpload(req).Reject?
    ensures resp.Rejected? ==>
              && resp.status == BadRequest
              && resp.message == ErrorMessage(ValidateUpload(req).error)
              && store.Contents() == old(store.Contents())
    ensures resp.Accepted? ==>
              var loc := ValidateUpload(req).location;
              && store.Contents() == Ingest(old(store.Contents()),
                   Report(savedPath, loc.latitude, loc.longitude, analysis.category,
                          analysis.severity, analysis.confidence, photoTime, zoneTime))
              && resp.photoId == |old(store.photos)| + 1
              && resp.analysis == analysis
              && resp.zone.Some?
              && resp.zone.value == store.zones[AssignedIndex(old(store.zones), loc.latitude, loc.longitude, DefaultRadius)]
              && InCell(resp.zone.value, loc.latitude, loc.longitude, DefaultRadius)
  {
    var checked := ValidateUpload(req);
    if checked.Reject? {
      return Rejected(BadRequest, ErrorMessage(checked.error));
    }
    var loc := checked.location;
    ghost var before := store.zones;
    var photoId := store.AddPhoto(savedPath, loc.latitude, loc.longitude, analysis.category,
                                  analysis.severity, analysis.confidence, photoTime, zoneTime);
    UpdatedZonesFindsAssignedZone(before, loc.latitude, loc.longitude, analysis.severity, DefaultRadius, zoneTime);
    var zone := ZoneByLocation(store.zones, loc.latitude, loc.longitude, DefaultRadius);
    ghost var k := AssignedIndex(before, loc.latitude, loc.longitude, DefaultRadius);
    assert zone.Some? && zone.value == store.zones[k] by {
      var k' :| IsFirstMatch(store.zones, k', loc.latitude, loc.longitude, DefaultRadius) && zone.value == store.zones[k'];
      FirstMatchUnique(store.zones, k, k', loc.latitude, loc.longitude, DefaultRadius);
    }
    resp := Accepted(photoId, analysis, zone);
  }
}
