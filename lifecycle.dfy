/** The life of one job across the web API and the explainer: uploaded, reported
    pending, processed by one pass of the polling loop, reported done. */
module Lifecycle {
  import opened Text
  import opened Folders
  import opened ChatHelper
  import opened WebApi

  /** No file in either directory has `uid` in its name: the uniqueness of `uuid4` that
      the status endpoint's substring search relies on. */
  predicate FreshUid(d: Dirs, uid: string) {
    && (forall n :: n in d.uploads ==> !Contains(n, uid))
    && (forall n :: n in d.outputs ==> !Contains(n, uid))
  }

  /** Right after an upload the job is reported pending, under the sanitized name without
      its extension and the upload's timestamp, in whatever order the directories list. */
  lemma UploadedJobIsPending(d: Dirs, uid: string, timestamp: string, original: string, data: Bytes,
                             uploadsOrder: seq<string>, outputsOrder: seq<string>)
    requires FreshUid(d, uid) && uid != "" && NoUnderscore(uid) && NoUnderscore(original)
    requires IsListing(uploadsOrder, SaveUpload(d, NewFilename(timestamp, uid, original), data).uploads.Keys)
    requires IsListing(outputsOrder, d.outputs.Keys)
    ensures GetFileStatus(uid, SaveUpload(d, NewFilename(timestamp, uid, original), data), uploadsOrder, outputsOrder)
         == Pending(SplitExt(original).0, timestamp)
  {
    var key := NewFilename(timestamp, uid, original);
    var d' := SaveUpload(d, key, data);
    assert key in uploadsOrder;
    FirstContainingUnique(uploadsOrder, uid, key);
    FilenameRoundTrip(timestamp, uid, original);
  }

  /** A pass over the new upload alone, when its presentation is explained, moves it: the
      uploads are as before the upload and the outputs gain the `.json.json` file holding
      the dumped answers. */
  lemma PassCommitsUpload(d: Dirs, uid: string, timestamp: string, base: string, data: Bytes,
                          role: string, complete: Completion, load: Bytes -> Option<PptxParser.Presentation>,
                          dump: seq<string> -> string, answers: seq<string>)
    requires FreshUid(d, uid)
    requires ChatOutcome(role, load(data), complete) == Ok(answers)
    ensures var key := NewFilename(timestamp, uid, base + ".pptx");
      Cycle(SaveUpload(d, key, data), [key], role, complete, load, dump)
        == (Dirs(d.uploads, d.outputs[OutputName(key) := dump(answers)]), None)
  {
    var key := NewFilename(timestamp, uid, base + ".pptx");
    var d1 := SaveUpload(d, key, data);
    assert key !in d.uploads;
    KeyWithExtension(timestamp, uid, base, ".pptx");
    var text := dump(answers);
    CommitNewUpload(d, key, data, text);
    var d2 := Commit(d1, key, text);
    assert [key][1..] == [];
    assert Cycle(d1, [key], role, complete, load, dump) == Cycle(d2, [], role, complete, load, dump);
  }

  /** A key built from a name with an extension ends with that extension. */
  lemma KeyWithExtension(timestamp: string, uid: string, base: string, ext: string)
    ensures NewFilename(timestamp, uid, base + ext) == (timestamp + "_" + uid + "_" + base) + ext
    ensures EndsWith(NewFilename(timestamp, uid, base + ext), ext)
  {
    var prefix := timestamp + "_" + uid + "_" + base;
    assert NewFilename(timestamp, uid, base + ext) == prefix + ext;
    assert (prefix + ext)[|prefix|..] == ext;
  }

  /** Committing an upload that was not there before leaves the uploads as they were. */
  lemma CommitNewUpload(d: Dirs, key: string, data: Bytes, text: string)
    requires key !in d.uploads
    ensures Commit(SaveUpload(d, key, data), key, text) == Dirs(d.uploads, d.outputs[OutputName(key) := text])
  {
    assert d.uploads[key := data] - {key} == d.uploads;
  }

  /** `os.path.splitext` takes a known extension back off. */
  lemma SplitKnown(p: string, ext: string)
    requires p != [] && p[|p| - 1] != '.' && p[|p| - 1] != '/'
    requires ext == ".pptx" || ext == ".json"
    ensures SplitExt(p + ext) == (p, ext)
  {
    KnownExtension(ext);
    SplitExtAppend(p, ext);
  }

  /** `p.json.json` is `p.json` with another `.json`. */
  lemma JsonJson(p: string)
    ensures p + ".json.json" == (p + ".json") + ".json"
  {
    var ext := ".json";
    assert ext + ext == ".json.json";
  }

  /** An output name `base.json.json` has an underscore only where `base` has one. */
  lemma JsonJsonName(base: string)
    requires NoUnderscore(base)
    ensures NoUnderscore(base + ".json.json")
  {
    var ext := ".json";
    assert ext + ext == ".json.json";
    KnownExtension(ext);
    LacksAppend(ext, ext, '_');
    LacksAppend(base, ext + ext, '_');
  }

  /** The output name of a processed upload `timestamp_uid_base.pptx` is
      `timestamp_uid_base.json.json`. */
  lemma OutputNameOfUpload(timestamp: string, uid: string, base: string)
    requires base != [] && base[|base| - 1] != '.' && base[|base| - 1] != '/'
    ensures OutputName(NewFilename(timestamp, uid, base + ".pptx"))
         == NewFilename(timestamp, uid, base + ".json.json")
  {
    var prefix := timestamp + "_" + uid + "_" + base;
    KeyWithExtension(timestamp, uid, base, ".pptx");
    KeyWithExtension(timestamp, uid, base, ".json.json");
    assert prefix[|prefix| - 1] == base[|base| - 1];
    SplitKnown(prefix, ".pptx");
    JsonJson(prefix);
    assert OutputName(prefix + ".pptx") == prefix + ".json" + ".json";
  }

  /** The status read off a processed upload's output file: the base name followed by
      `.json`, since the output file carries two `.json` suffixes and only the last is
      dropped, and the upload's timestamp. */
  lemma DescribeOutput(timestamp: string, uid: string, base: string, text: string)
    requires NoUnderscore(uid) && NoUnderscore(base)
    ensures Describe(NewFilename(timestamp, uid, base + ".json.json"), Some(text))
         == Done(base + ".json", timestamp, text)
  {
    var original := base + ".json.json";
    JsonJsonName(base);
    JsonJson(base);
    FilenameRoundTrip(timestamp, uid, original);
    SplitKnown(base + ".json", ".json");
  }

  /** After the pass the job is reported done, with the dumped answers as its
      explanation. */
  lemma ProcessedJobIsDone(d: Dirs, uid: string, timestamp: string, base: string, text: string,
                           uploadsOrder: seq<string>, outputsOrder: seq<string>)
    requires FreshUid(d, uid) && uid != "" && NoUnderscore(uid) && NoUnderscore(base)
    requires base != [] && base[|base| - 1] != '.' && base[|base| - 1] != '/'
    requires var out := OutputName(NewFilename(timestamp, uid, base + ".pptx"));
      IsListing(uploadsOrder, d.uploads.Keys) && IsListing(outputsOrder, d.outputs[out := text].Keys)
    ensures var out := OutputName(NewFilename(timestamp, uid, base + ".pptx"));
      GetFileStatus(uid, Dirs(d.uploads, d.outputs[out := text]), uploadsOrder, outputsOrder)
        == Done(base + ".json", timestamp, text)
  {
    var out := OutputName(NewFilename(timestamp, uid, base + ".pptx"));
    OutputNameOfUpload(timestamp, uid, base);
    var d3 := Dirs(d.uploads, d.outputs[out := text]);
    DoneReadsOutput(uid, d3, uploadsOrder, outputsOrder, out);
    DescribeOutput(timestamp, uid, base, text);
  }
}
