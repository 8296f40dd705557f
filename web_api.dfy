/** `web_api/app.py`: the upload endpoint, which files a presentation under a
    `timestamp_uid_name` key in the uploads directory, and the status endpoint, which
    finds a job by its uid in the uploads and outputs directories. */
module WebApi {
  import opened Text
  import opened Folders

  // ---------------------------------------------------------------------------------
  // Timestamps: `datetime.now().strftime("%Y%m%d%H%M%S")`.

  datatype DateTime = DateTime(year: nat, month: nat, day: nat, hour: nat, minute: nat, second: nat)

  /** The clock readings the model admits: a four-digit year and in-range fields. */
  predicate ValidDateTime(t: DateTime) {
    && 1000 <= t.year <= 9999 && 1 <= t.month <= 12 && 1 <= t.day <= 31
    && t.hour <= 23 && t.minute <= 59 && t.second <= 59
  }

  function FormatTimestamp(t: DateTime): (r: string)
    requires ValidDateTime(t)
    ensures |r| == 14
    ensures forall k :: 0 <= k < |r| ==> IsDigit(r[k])
  {
    PaddedDecimal(t.year, 4) + PaddedDecimal(t.month, 2) + PaddedDecimal(t.day, 2)
      + PaddedDecimal(t.hour, 2) + PaddedDecimal(t.minute, 2) + PaddedDecimal(t.second, 2)
  }

  /** The timestamp reads back field by field, as the client's
      `strptime(..., "%Y%m%d%H%M%S")` reads it. */
  lemma TimestampRoundTrip(t: DateTime)
    requires ValidDateTime(t)
    ensures var r := FormatTimestamp(t);
      && ParseDecimal(r[0..4]) == t.year
      && ParseDecimal(r[4..6]) == t.month
      && ParseDecimal(r[6..8]) == t.day
      && ParseDecimal(r[8..10]) == t.hour
      && ParseDecimal(r[10..12]) == t.minute
      && ParseDecimal(r[12..14]) == t.second
  {
    assert Pow10(2) == 100 && Pow10(4) == 10000 by {
      assert Pow10(1) == 10;
      assert Pow10(3) == 1000;
    }
    var r := FormatTimestamp(t);
    SixFields(PaddedDecimal(t.year, 4), PaddedDecimal(t.month, 2), PaddedDecimal(t.day, 2),
              PaddedDecimal(t.hour, 2), PaddedDecimal(t.minute, 2), PaddedDecimal(t.second, 2));
    PaddedRoundTrip(t.year, 4);
    PaddedRoundTrip(t.month, 2);
    PaddedRoundTrip(t.day, 2);
    PaddedRoundTrip(t.hour, 2);
    PaddedRoundTrip(t.minute, 2);
    PaddedRoundTrip(t.second, 2);
  }

  /** The fields of a `%Y%m%d%H%M%S` string, read back by position. */
  lemma SixFields(year: string, month: string, day: string, hour: string, minute: string, second: string)
    requires |year| == 4 && |month| == 2 && |day| == 2 && |hour| == 2 && |minute| == 2 && |second| == 2
    ensures var r := year + month + day + hour + minute + second;
      && r[0..4] == year && r[4..6] == month && r[6..8] == day
      && r[8..10] == hour && r[10..12] == minute && r[12..14] == second
  {
  }

  // ---------------------------------------------------------------------------------
  // The name a job is stored under.

  predicate NoUnderscore(s: string) {
    Lacks(s, '_')
  }

  /** `f"{timestamp}_{uid}_{original_filename}"`: the key starts with the timestamp and an
      underscore, ends with an underscore and the name, and contains the uid. */
  function NewFilename(timestamp: string, uid: string, original: string): (key: string)
    ensures timestamp + "_" <= key
    ensures EndsWith(key, "_" + original)
    ensures Contains(key, uid)
  {
    var key := timestamp + "_" + uid + "_" + original;
    assert key == (timestamp + "_") + uid + ("_" + original);
    ContainsPart(timestamp + "_", uid, "_" + original);
    key
  }

  /** The three fields of `filename.rsplit('_', 2)`. */
  datatype NameFields = NameFields(timestamp: string, middle: string, original: string)

  /** `timestamp, _, original_filename = filename.rsplit('_', 2)`; `None` where the
      unpacking raises. The unpacking succeeds exactly when the name holds at least two
      underscores, and then the fields rebuild the name, the last two hold no underscore
      and the last is the text after the name's last underscore. */
  function DecodeFilename(filename: string): (r: Option<NameFields>)
    ensures r.Some? <==> Occurrences(filename, '_') >= 2
    ensures r.Some? ==> filename == NewFilename(r.value.timestamp, r.value.middle, r.value.original)
    ensures r.Some? ==> NoUnderscore(r.value.middle) && NoUnderscore(r.value.original)
    ensures r.Some? ==> r.value.original == AfterLast(filename, '_')
  {
    RSplit2Fields(filename, '_');
    var parts := RSplit2(filename, '_');
    if |parts| == 3 then Some(NameFields(parts[0], parts[1], parts[2])) else None
  }

  /** Decoding gives back the timestamp, the uid and the sanitized name, provided neither
      the uid nor the name holds an underscore. */
  lemma FilenameRoundTrip(timestamp: string, uid: string, original: string)
    requires NoUnderscore(uid) && NoUnderscore(original)
    ensures DecodeFilename(NewFilename(timestamp, uid, original)) == Some(NameFields(timestamp, uid, original))
  {
    var head := timestamp + "_" + uid;
    var key := NewFilename(timestamp, uid, original);
    assert key == head + ['_'] + original;
    LastIndexOfSeparator(head, original, '_');
    assert key[..|head|] == head && key[|head| + 1..] == original;
    assert head == timestamp + ['_'] + uid;
    LastIndexOfSeparator(timestamp, uid, '_');
    assert key[..|head|][..|timestamp|] == key[..|timestamp|] == timestamp;
    assert key[|timestamp| + 1..|head|] == uid;
  }

  /** An underscore in the sanitized name shifts the fields: the part of the name before
      its last underscore is taken for the uid, and the uid joins the timestamp. */
  lemma UnderscoreShiftsFields(timestamp: string, uid: string, left: string, right: string)
    requires NoUnderscore(uid) && NoUnderscore(left) && NoUnderscore(right)
    ensures DecodeFilename(NewFilename(timestamp, uid, left + "_" + right))
         == Some(NameFields(timestamp + "_" + uid, left, right))
  {
    var stamp := timestamp + "_" + uid;
    var head := stamp + "_" + left;
    var key := NewFilename(timestamp, uid, left + "_" + right);
    assert key == head + ['_'] + right;
    LastIndexOfSeparator(head, right, '_');
    assert key[..|head|] == head && key[|head| + 1..] == right;
    assert head == stamp + ['_'] + left;
    LastIndexOfSeparator(stamp, left, '_');
    assert key[..|head|][..|stamp|] == key[..|stamp|] == stamp;
    assert key[|stamp| + 1..|head|] == left;
  }

  // ---------------------------------------------------------------------------------
  // POST /upload

  /** A part of a multipart request: the file name the client claims and the bytes. */
  datatype FilePart = FilePart(filename: string, data: Bytes)

  datatype UploadResponse =
    | Uploaded(uid: string)     // 200 {"uid": ...}
    | Rejected(error: string)   // 400 {"error": ...}

  function UploadStatusCode(r: UploadResponse): nat {
    if r.Uploaded? then 200 else 400
  }

  /** `upload_file()`. `files` is `request.files` by field name; `uid` is `str(uuid4())`,
      `now` the clock and `secureFilename` werkzeug's `secure_filename`, all supplied
      from outside. */
  method UploadFile(dirs: Store, files: map<string, FilePart>, uid: string, now: DateTime,
                    secureFilename: string -> string)
    returns (response: UploadResponse)
    requires ValidDateTime(now)
    modifies dirs
    ensures "file" !in files ==>
      response == Rejected("No file uploaded.") && dirs.State() == old(dirs.State())
    ensures "file" in files && files["file"].filename == "" ==>
      response == Rejected("Empty filename.") && dirs.State() == old(dirs.State())
    ensures "file" in files && files["file"].filename != "" ==>
      && response == Uploaded(uid)
      && dirs.State() == SaveUpload(old(dirs.State()),
           NewFilename(FormatTimestamp(now), uid, secureFilename(files["file"].filename)),
           files["file"].data)
  {
    if "file" !in files {
      return Rejected("No file uploaded.");
    }
    var file := files["file"];
    if file.filename == "" {
      return Rejected("Empty filename.");
    }
    var originalFilename := secureFilename(file.filename);
    var timestamp := FormatTimestamp(now);
    var newFilename := timestamp + "_" + uid + "_" + originalFilename;
    dirs.Save(newFilename, file.data);
    response := Uploaded(uid);
  }

  // ---------------------------------------------------------------------------------
  // GET /status/<uid>

  datatype FileStatus =
    | Pending(filename: string, timestamp: string)                       // 200
    | Done(filename: string, timestamp: string, explanation: string)     // 200
    | NotFound                                                           // 404
    | UnpackFailed                                                       // the rsplit unpacking raised: 500

  function StatusCode(s: FileStatus): nat {
    match s
    case Pending(_, _) => 200
    case Done(_, _, _) => 200
    case NotFound => 404
    case UnpackFailed => 500
  }

  /** `listing[i]` is the first listed name containing `uid`. */
  predicate FirstHit(listing: seq<string>, uid: string, i: int) {
    && 0 <= i < |listing| && Contains(listing[i], uid)
    && forall j :: 0 <= j < i ==> !Contains(listing[j], uid)
  }

  /** `next((f for f in listing if uid in f), None)`: the first listed name containing
      `uid`, if any. */
  function FirstContaining(listing: seq<string>, uid: string): (r: Option<string>)
    ensures r.None? <==> forall i :: 0 <= i < |listing| ==> !Contains(listing[i], uid)
    ensures r.Some? ==> exists i :: FirstHit(listing, uid, i) && listing[i] == r.value
  {
    if listing == [] then None
    else if Contains(listing[0], uid) then
      assert FirstHit(listing, uid, 0);
      Some(listing[0])
    else
      var r := FirstContaining(listing[1..], uid);
      assert r.Some? ==> exists i :: FirstHit(listing, uid, i) && listing[i] == r.value by {
        if r.Some? {
          var i :| FirstHit(listing[1..], uid, i) && listing[1..][i] == r.value;
          forall j | 0 <= j < i + 1
            ensures !Contains(listing[j], uid)
          {
            if j > 0 {
              assert listing[j] == listing[1..][j - 1];
            }
          }
          assert FirstHit(listing, uid, i + 1);
        }
      }
      r
  }

  /** What the status endpoint reports for one matching file name: an unpacking error
      exactly when the name holds fewer than two underscores; otherwise pending or done
      as an explanation is absent or present, with a timestamp that starts the name and
      a name that starts the text after its last underscore. */
  function Describe(filename: string, explanation: Option<string>): (s: FileStatus)
    ensures s != NotFound
    ensures s == UnpackFailed <==> Occurrences(filename, '_') < 2
    ensures s.Pending? ==> explanation.None?
    ensures s.Done? ==> explanation == Some(s.explanation)
    ensures s.Pending? || s.Done? ==> s.timestamp + "_" <= filename && s.filename <= AfterLast(filename, '_')
  {
    match DecodeFilename(filename)
    case None => UnpackFailed
    case Some(fields) =>
      var name := SplitExt(fields.original).0;
      assert name <= fields.original by {
        assert name + SplitExt(fields.original).1 == fields.original;
      }
      match explanation
      case None => Pending(name, fields.timestamp)
      case Some(text) => Done(name, fields.timestamp, text)
  }

  /** `get_file_status(uid)`, against the directories `d` listed in the given orders. A
      match is used only when it is a non-empty name (`if uploaded_file:`). A pending
      answer comes from an upload whose name contains `uid`; a done answer carries the
      text of an output whose name contains `uid`. */
  function GetFileStatus(uid: string, d: Dirs, uploadsOrder: seq<string>, outputsOrder: seq<string>): (r: FileStatus)
    requires IsListing(uploadsOrder, d.uploads.Keys) && IsListing(outputsOrder, d.outputs.Keys)
    ensures r.Pending? ==> exists n :: n in d.uploads && Contains(n, uid)
    ensures r.Done? ==> exists n :: n in d.outputs && Contains(n, uid) && d.outputs[n] == r.explanation
  {
    var uploaded := FirstContaining(uploadsOrder, uid);
    if uploaded.Some? && uploaded.value != "" then
      Describe(uploaded.value, None)
    else
      var output := FirstContaining(outputsOrder, uid);
      if output.Some? && output.value != "" then
        Describe(output.value, Some(d.outputs[output.value]))
      else
        NotFound
  }

  /** A name is the only one in a listing to contain `uid`, so it is the one found. */
  lemma {:induction false} FirstContainingUnique(listing: seq<string>, uid: string, name: string)
    requires name in listing && Contains(name, uid)
    requires forall i :: 0 <= i < |listing| && listing[i] != name ==> !Contains(listing[i], uid)
    ensures FirstContaining(listing, uid) == Some(name)
  {
    if listing[0] != name {
      FirstContainingUnique(listing[1..], uid, name);
    }
  }

  /** Uploads are searched first: once an upload contains the uid, the outputs (their
      names, their order, their contents) make no difference, and the answer is pending
      or, for a name that does not unpack, an error. */
  lemma UploadsSearchedFirst(uid: string, d: Dirs, uploadsOrder: seq<string>, outputsOrder: seq<string>,
                             otherOutputs: map<string, string>, otherOrder: seq<string>)
    requires IsListing(uploadsOrder, d.uploads.Keys) && IsListing(outputsOrder, d.outputs.Keys)
    requires IsListing(otherOrder, otherOutputs.Keys)
    requires uid != ""
    requires exists n :: n in d.uploads && Contains(n, uid)
    ensures var s := GetFileStatus(uid, d, uploadsOrder, outputsOrder);
      && s == GetFileStatus(uid, Dirs(d.uploads, otherOutputs), uploadsOrder, otherOrder)
      && (s.Pending? || s == UnpackFailed)
  {
    var n :| n in d.uploads && Contains(n, uid);
    assert n in uploadsOrder;
    var hit := FirstContaining(uploadsOrder, uid);
    assert !Contains("", uid);
  }

  /** The answer is "not found" exactly when no file in either directory has the uid
      in its name. */
  lemma NotFoundIff(uid: string, d: Dirs, uploadsOrder: seq<string>, outputsOrder: seq<string>)
    requires IsListing(uploadsOrder, d.uploads.Keys) && IsListing(outputsOrder, d.outputs.Keys)
    requires uid != ""
    ensures GetFileStatus(uid, d, uploadsOrder, outputsOrder) == NotFound <==>
      (forall n :: n in d.uploads ==> !Contains(n, uid)) && (forall n :: n in d.outputs ==> !Contains(n, uid))
  {
    assert !Contains("", uid);
    if exists n :: n in d.uploads && Contains(n, uid) {
      var n :| n in d.uploads && Contains(n, uid);
      assert n in uploadsOrder;
    }
    if exists n :: n in d.outputs && Contains(n, uid) {
      var n :| n in d.outputs && Contains(n, uid);
      assert n in outputsOrder;
    }
  }

  /** With no upload and a single output containing the uid, the answer is "done", with
      the output file's text as the explanation, whatever the listing order. */
  lemma DoneReadsOutput(uid: string, d: Dirs, uploadsOrder: seq<string>, outputsOrder: seq<string>, output: string)
    requires IsListing(uploadsOrder, d.uploads.Keys) && IsListing(outputsOrder, d.outputs.Keys)
    requires forall n :: n in d.uploads ==> !Contains(n, uid)
    requires output in d.outputs && Contains(output, uid) && output != ""
    requires forall n :: n in d.outputs && n != output ==> !Contains(n, uid)
    ensures GetFileStatus(uid, d, uploadsOrder, outputsOrder) == Describe(output, Some(d.outputs[output]))
  {
    assert output in outputsOrder;
    FirstContainingUnique(outputsOrder, uid, output);
  }
}
