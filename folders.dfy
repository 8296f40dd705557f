/** The two data directories the web API and the explainer share: `data/uploads`, where a
    submitted presentation waits, and `data/outputs`, where its explanation file lands. A
    directory is a map from file name to contents; the order `os.listdir` reports is a
    separate sequence handed to the operations that list a directory. */
module Folders {

  type Bytes = seq<bv8>

  /** A snapshot of both directories. */
  datatype Dirs = Dirs(uploads: map<string, Bytes>, outputs: map<string, string>)

  /** `order` is what `os.listdir` may return for a directory holding `names`: each name
      exactly once, in some order. */
  predicate IsListing(order: seq<string>, names: set<string>) {
    && (forall i :: 0 <= i < |order| ==> order[i] in names)
    && (forall n :: n in names ==> n in order)
    && (forall i, j :: 0 <= i < j < |order| ==> order[i] != order[j])
  }

  /** `file.save(...)` into the uploads directory. */
  function SaveUpload(d: Dirs, name: string, data: Bytes): (r: Dirs)
    ensures r.uploads.Keys == d.uploads.Keys + {name} && r.uploads[name] == data
    ensures forall n :: n in d.uploads && n != name ==> r.uploads[n] == d.uploads[n]
    ensures r.outputs == d.outputs
  {
    Dirs(d.uploads[name := data], d.outputs)
  }

  /** Writing a text file into the outputs directory (creating or overwriting it). */
  function WriteOutput(d: Dirs, name: string, text: string): (r: Dirs)
    ensures r.outputs.Keys == d.outputs.Keys + {name} && r.outputs[name] == text
    ensures forall n :: n in d.outputs && n != name ==> r.outputs[n] == d.outputs[n]
    ensures r.uploads == d.uploads
  {
    Dirs(d.uploads, d.outputs[name := text])
  }

  /** `os.remove(...)` on the uploads directory. */
  function RemoveUpload(d: Dirs, name: string): (r: Dirs)
    ensures r.uploads.Keys == d.uploads.Keys - {name}
    ensures forall n :: n in r.uploads ==> r.uploads[n] == d.uploads[n]
    ensures r.outputs == d.outputs
  {
    Dirs(d.uploads - {name}, d.outputs)
  }

  /** The directories on disk, changed in place by the web API and by the explainer. */
  class Store {
    var uploads: map<string, Bytes>
    var outputs: map<string, string>

    constructor (uploads: map<string, Bytes>, outputs: map<string, string>)
      ensures this.uploads == uploads && this.outputs == outputs
    {
      this.uploads := uploads;
      this.outputs := outputs;
    }

    function State(): Dirs
      reads this
    {
      Dirs(uploads, outputs)
    }

    method Save(name: string, data: Bytes)
      modifies this
      ensures State() == SaveUpload(old(State()), name, data)
    {
      uploads := uploads[name := data];
    }

    method Write(name: string, text: string)
      modifies this
      ensures State() == WriteOutput(old(State()), name, text)
    {
      outputs := outputs[name := text];
    }

    /** `os.remove` raises when the file is gone; callers only remove what they just read. */
    method Remove(name: string)
      requires name in uploads
      modifies this
      ensures State() == RemoveUpload(old(State()), name)
    {
      uploads := uploads - {name};
    }
  }
}
