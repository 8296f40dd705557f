/** `explainer/presentation_chat_helper.py`: the per-slide explanation requests of one
    presentation, and one pass of the explainer's polling loop over the uploads directory. */
module ChatHelper {
  import opened Text
  import opened PptxParser
  import opened Folders

  /** Why explaining one presentation raised. */
  datatype ChatError =
    | UnreadablePresentation  // python-pptx could not open the file
    | NoSubject               // `next(iter(...))` on an empty parse
    | CompletionFailed        // one of the gathered completion requests raised

  /** The text-generation service: the answer to a prompt under a system role, or `None`
      when the request raises. */
  type Completion = (string, string) -> Option<string>

  /** The chat client's state that the helper changes: its system role. */
  class Chat {
    var systemRole: string

    constructor ()
      ensures systemRole == ""
    {
      systemRole := "";
    }

    method SetSystemRole(role: string)
      modifies this
      ensures systemRole == role
    {
      systemRole := role;
    }
  }

  /** The prompt sent for one slide. */
  function Prompt(content: string, subject: string): string {
    "Could you give your best explanation to this presentation slide's content: " + content
      + "?(The presentation's subject is " + subject + ")."
  }

  /** The prompt names the slide's text and the presentation's subject. */
  lemma PromptNames(content: string, subject: string)
    ensures Contains(Prompt(content, subject), content) && Contains(Prompt(content, subject), subject)
  {
    var head := "Could you give your best explanation to this presentation slide's content: ";
    var middle := "?(The presentation's subject is ";
    var p := Prompt(content, subject);
    assert p == head + content + (middle + subject + ").");
    ContainsPart(head, content, middle + subject + ").");
    assert p == (head + content + middle) + subject + ").";
    ContainsPart(head + content + middle, subject, ").");
  }

  /** One prompt per parsed entry, in insertion order. */
  function Prompts(parsed: seq<Entry>, subject: string): (prompts: seq<string>)
    ensures |prompts| == |parsed|
    ensures forall i :: 0 <= i < |parsed| ==> prompts[i] == Prompt(parsed[i].value, subject)
  {
    seq(|parsed|, i requires 0 <= i < |parsed| => Prompt(parsed[i].value, subject))
  }

  /** Each prompt names its own entry's text and the common subject. */
  lemma PromptsNameEntries(parsed: seq<Entry>, subject: string)
    ensures forall i :: 0 <= i < |parsed| ==>
      Contains(Prompts(parsed, subject)[i], parsed[i].value) && Contains(Prompts(parsed, subject)[i], subject)
  {
    forall i | 0 <= i < |parsed|
      ensures Contains(Prompts(parsed, subject)[i], parsed[i].value) && Contains(Prompts(parsed, subject)[i], subject)
    {
      PromptNames(parsed[i].value, subject);
    }
  }

  /** The answers to all prompts, in prompt order, or `None` if any request raises
      (`asyncio.gather` returns results in argument order and propagates the first
      exception). */
  function AskAll(role: string, prompts: seq<string>, complete: Completion): (r: Option<seq<string>>)
    ensures r.None? <==> exists i :: 0 <= i < |prompts| && complete(role, prompts[i]).None?
    ensures r.Some? ==> |r.value| == |prompts|
    ensures r.Some? ==> forall i :: 0 <= i < |prompts| ==> complete(role, prompts[i]) == Some(r.value[i])
  {
    if prompts == [] then Some([])
    else
      var first := complete(role, prompts[0]);
      var rest := AskAll(role, prompts[1..], complete);
      if first.None? then None
      else if rest.None? then
        assert exists i :: 0 <= i < |prompts| && complete(role, prompts[i]).None? by {
          var i :| 0 <= i < |prompts[1..]| && complete(role, prompts[1..][i]).None?;
          assert complete(role, prompts[i + 1]).None?;
        }
        None
      else Some([first.value] + rest.value)
  }

  /** When the gathered requests raise, one of them is the request for some entry. */
  lemma PromptFails(role: string, parsed: seq<Entry>, subject: string, complete: Completion)
    requires AskAll(role, Prompts(parsed, subject), complete).None?
    ensures exists i :: 0 <= i < |parsed| && complete(role, Prompt(parsed[i].value, subject)).None?
  {
    var prompts := Prompts(parsed, subject);
    var i :| 0 <= i < |prompts| && complete(role, prompts[i]).None?;
    assert prompts[i] == Prompt(parsed[i].value, subject);
  }

  /** When the gathered requests all return, the answers follow the entries one for one. */
  lemma PromptsAnswered(role: string, parsed: seq<Entry>, subject: string, complete: Completion)
    requires AskAll(role, Prompts(parsed, subject), complete).Some?
    ensures var answers := AskAll(role, Prompts(parsed, subject), complete).value;
      && |answers| == |parsed|
      && forall i :: 0 <= i < |parsed| ==> complete(role, Prompt(parsed[i].value, subject)) == Some(answers[i])
  {
    var prompts := Prompts(parsed, subject);
    assert forall i :: 0 <= i < |parsed| ==> prompts[i] == Prompt(parsed[i].value, subject);
  }

  /** What `chat_process` gathers from a parse: the subject is the first entry's text,
      and each entry's text is asked about in turn. */
  function Explain(role: string, parsed: seq<Entry>, complete: Completion): (r: Result<seq<string>, ChatError>)
    ensures r.Err? ==> r.error != UnreadablePresentation
    ensures r == Err(NoSubject) <==> parsed == []
    ensures r == Err(CompletionFailed) <==>
      parsed != [] && exists i :: 0 <= i < |parsed| && complete(role, Prompt(parsed[i].value, parsed[0].value)).None?
    ensures r.Ok? ==> |r.value| == |parsed|
    ensures r.Ok? ==> forall i :: 0 <= i < |parsed| ==>
      complete(role, Prompt(parsed[i].value, parsed[0].value)) == Some(r.value[i])
  {
    if parsed == [] then Err(NoSubject)
    else
      var prompts := Prompts(parsed, parsed[0].value);
      match AskAll(role, prompts, complete)
      case None =>
        PromptFails(role, parsed, parsed[0].value, complete);
        Err(CompletionFailed)
      case Some(answers) =>
        PromptsAnswered(role, parsed, parsed[0].value, complete);
        Ok(answers)
  }

  /** What `chat_process` yields for a file: its parse, explained under `role`. */
  function ChatOutcome(role: string, presentation: Option<Presentation>, complete: Completion): Result<seq<string>, ChatError> {
    match presentation
    case None => Err(UnreadablePresentation)
    case Some(slides) => Explain(role, Parse(slides), complete)
  }

  /** The subject selection and the gathered requests, asked one after another. */
  method Gather(chat: Chat, parsed: seq<Entry>, complete: Completion) returns (r: Result<seq<string>, ChatError>)
    ensures r == Explain(chat.systemRole, parsed, complete)
  {
    if parsed == [] {
      return Err(NoSubject);
    }
    var subject := parsed[0].value;
    var responses := [];
    var i := 0;
    while i < |parsed|
      invariant 0 <= i <= |parsed|
      invariant |responses| == i
      invariant forall k :: 0 <= k < i ==> complete(chat.systemRole, Prompt(parsed[k].value, subject)) == Some(responses[k])
    {
      var answer := complete(chat.systemRole, Prompt(parsed[i].value, subject));
      if answer.None? {
        assert complete(chat.systemRole, Prompt(parsed[i].value, parsed[0].value)).None?;
        return Err(CompletionFailed);
      }
      responses := responses + [answer.value];
      i := i + 1;
    }
    r := Ok(responses);
    var expected := Explain(chat.systemRole, parsed, complete);
    assert expected.Ok? && |expected.value| == |responses|;
    assert forall k :: 0 <= k < |parsed| ==> expected.value[k] == responses[k];
    assert expected.value == responses;
  }

  /** `chat_process(chat, presentation_path, chat_role)`: sets the role, parses the file
      and gathers one answer per kept slide. `load` stands for opening the file as a
      presentation. */
  method ChatProcess(chat: Chat, file: Bytes, load: Bytes -> Option<Presentation>, role: string, complete: Completion)
    returns (r: Result<seq<string>, ChatError>)
    modifies chat
    ensures chat.systemRole == role
    ensures r == ChatOutcome(role, load(file), complete)
  {
    chat.SetSystemRole(role);
    var presentation := load(file);
    if presentation.None? {
      return Err(UnreadablePresentation);
    }
    var parsed := PptxParser.ParseContentToStringDict(presentation.value);
    r := Gather(chat, parsed, complete);
  }

  // ---------------------------------------------------------------------------------
  // One pass of `main`'s polling loop.

  /** Why a pass of the loop stopped early: the exception that left `main`. */
  datatype WorkerError =
    | FileMissing(name: string)     // the listed upload was gone when it was opened
    | ChatFailed(error: ChatError)  // `chat_process` raised

  /** `data/outputs/{splitext(filename)[0]}.json`, to which `save_list_as_json` adds a
      second `.json`. */
  function OutputName(upload: string): (r: string)
    ensures EndsWith(r, ".json.json")
    ensures r[..|r| - 10] <= upload
  {
    var root := SplitExt(upload).0;
    assert root + SplitExt(upload).1 == upload;
    root + ".json" + ".json"
  }

  /** A job is still somewhere: its upload is waiting, or its output has been written. */
  predicate Tracked(d: Dirs, upload: string) {
    upload in d.uploads || OutputName(upload) in d.outputs
  }

  /** The end of one job in `main`'s loop: write the output, then remove the upload. */
  function Commit(d: Dirs, upload: string, text: string): (r: Dirs)
    ensures forall n :: Tracked(d, n) ==> Tracked(WriteOutput(d, OutputName(upload), text), n)
    ensures forall n :: Tracked(d, n) ==> Tracked(r, n)
  {
    RemoveUpload(WriteOutput(d, OutputName(upload), text), upload)
  }

  /** The files of `listing` from the first one on, processed in order. Files whose name
      does not end in `.pptx` are skipped; the first failure ends the pass. */
  function Cycle(d: Dirs, listing: seq<string>, role: string, complete: Completion,
                 load: Bytes -> Option<Presentation>, dump: seq<string> -> string): (r: (Dirs, Option<WorkerError>))
    ensures r.0.uploads.Keys <= d.uploads.Keys
    ensures d.outputs.Keys <= r.0.outputs.Keys
    decreases |listing|
  {
    if listing == [] then (d, None)
    else
      var name := listing[0];
      if !EndsWith(name, ".pptx") then Cycle(d, listing[1..], role, complete, load, dump)
      else if name !in d.uploads then (d, Some(FileMissing(name)))
      else
        match ChatOutcome(role, load(d.uploads[name]), complete)
        case Err(e) => (d, Some(ChatFailed(e)))
        case Ok(answers) => Cycle(Commit(d, name, dump(answers)), listing[1..], role, complete, load, dump)
  }

  /** One iteration of `while True`: list the uploads (the listing is passed in), process
      every `.pptx` file, writing its output before removing it. `dump` stands for
      `json.dump` of a list of strings. */
  method RunCycle(dirs: Store, chat: Chat, listing: seq<string>, role: string, complete: Completion,
                  load: Bytes -> Option<Presentation>, dump: seq<string> -> string)
    returns (error: Option<WorkerError>)
    modifies dirs, chat
    ensures (dirs.State(), error) == Cycle(old(dirs.State()), listing, role, complete, load, dump)
    ensures forall n :: n in old(dirs.uploads) ==> Tracked(dirs.State(), n)
  {
    error := None;
    var i := 0;
    while i < |listing|
      invariant 0 <= i <= |listing|
      invariant Cycle(old(dirs.State()), listing, role, complete, load, dump)
             == Cycle(dirs.State(), listing[i..], role, complete, load, dump)
    {
      var filename := listing[i];
      ghost var before := dirs.State();
      assert listing[i..][1..] == listing[i + 1..];
      if EndsWith(filename, ".pptx") {
        if filename !in dirs.uploads {
          error := Some(FileMissing(filename));
          break;
        }
        var answers := ChatProcess(chat, dirs.uploads[filename], load, role, complete);
        if answers.Err? {
          error := Some(ChatFailed(answers.error));
          break;
        }
        var outputFilename := SplitExt(filename).0;
        var outputFilePath := outputFilename + ".json";
        dirs.Write(outputFilePath + ".json", dump(answers.value));
        dirs.Remove(filename);
        assert dirs.State() == Commit(before, filename, dump(answers.value));
      }
      i := i + 1;
    }
    forall n | n in old(dirs.uploads)
      ensures Tracked(dirs.State(), n)
    {
      CycleKeepsJobs(old(dirs.State()), listing, role, complete, load, dump, n);
    }
  }

  /** A job is never lost by a pass: every upload present when the pass starts is, when
      it ends, still an upload or has its output written, whatever happened. */
  lemma {:induction false} CycleKeepsJobs(d: Dirs, listing: seq<string>, role: string, complete: Completion,
                                          load: Bytes -> Option<Presentation>, dump: seq<string> -> string, n: string)
    requires Tracked(d, n)
    ensures Tracked(Cycle(d, listing, role, complete, load, dump).0, n)
    decreases |listing|
  {
    if listing != [] {
      var name := listing[0];
      if !EndsWith(name, ".pptx") {
        CycleKeepsJobs(d, listing[1..], role, complete, load, dump, n);
      } else if name in d.uploads {
        match ChatOutcome(role, load(d.uploads[name]), complete)
        case Err(e) =>
        case Ok(answers) =>
          CycleKeepsJobs(Commit(d, name, dump(answers)), listing[1..], role, complete, load, dump, n);
      }
    }
  }

  /** Writing first matters: removing first would leave a waiting job with no output in
      neither directory. */
  lemma RemoveFirstLosesJob(d: Dirs, upload: string)
    requires upload in d.uploads && OutputName(upload) !in d.outputs
    ensures !Tracked(RemoveUpload(d, upload), upload)
    ensures Tracked(WriteOutput(d, OutputName(upload), ""), upload)
  {
  }

  /** A pass that ends without an exception has removed every listed `.pptx` upload and
      written an output for each. */
  lemma {:induction false} CycleMovesListed(d: Dirs, listing: seq<string>, role: string, complete: Completion,
                                            load: Bytes -> Option<Presentation>, dump: seq<string> -> string)
    requires Cycle(d, listing, role, complete, load, dump).1.None?
    ensures forall i :: 0 <= i < |listing| && EndsWith(listing[i], ".pptx") ==>
      var r := Cycle(d, listing, role, complete, load, dump).0;
      listing[i] !in r.uploads && OutputName(listing[i]) in r.outputs
    decreases |listing|
  {
    if listing != [] {
      var name := listing[0];
      var rest := listing[1..];
      var r := Cycle(d, listing, role, complete, load, dump).0;
      var d' := d;
      if !EndsWith(name, ".pptx") {
        CycleMovesListed(d, rest, role, complete, load, dump);
      } else {
        match ChatOutcome(role, load(d.uploads[name]), complete)
        case Ok(answers) =>
          d' := Commit(d, name, dump(answers));
          CycleMovesListed(d', rest, role, complete, load, dump);
          assert name !in d'.uploads && OutputName(name) in d'.outputs;
      }
      assert r == Cycle(d', rest, role, complete, load, dump).0;
      forall i | 0 <= i < |listing| && EndsWith(listing[i], ".pptx")
        ensures listing[i] !in r.uploads && OutputName(listing[i]) in r.outputs
      {
        if i > 0 {
          assert listing[i] == rest[i - 1];
        }
      }
    }
  }

  /** Uploads the pass does not process (not listed, or not `.pptx`) keep their contents. */
  lemma {:induction false} CycleLeavesOthers(d: Dirs, listing: seq<string>, role: string, complete: Completion,
                                             load: Bytes -> Option<Presentation>, dump: seq<string> -> string, n: string)
    requires n in d.uploads
    requires !EndsWith(n, ".pptx") || n !in listing
    ensures var r := Cycle(d, listing, role, complete, load, dump).0;
      n in r.uploads && r.uploads[n] == d.uploads[n]
    decreases |listing|
  {
    if listing != [] {
      var name := listing[0];
      var rest := listing[1..];
      if !EndsWith(name, ".pptx") {
        CycleLeavesOthers(d, rest, role, complete, load, dump, n);
      } else if name in d.uploads {
        match ChatOutcome(role, load(d.uploads[name]), complete)
        case Err(e) =>
        case Ok(answers) =>
          var d' := Commit(d, name, dump(answers));
          assert n != name;
          assert n in d'.uploads && d'.uploads[n] == d.uploads[n];
          CycleLeavesOthers(d', rest, role, complete, load, dump, n);
      }
    }
  }

  /** A pass over `a + b` that gets through `a` without an exception goes on over `b`
      from where `a` left the directories. */
  lemma {:induction false} CycleAppend(d: Dirs, a: seq<string>, b: seq<string>, role: string, complete: Completion,
                                       load: Bytes -> Option<Presentation>, dump: seq<string> -> string)
    requires Cycle(d, a, role, complete, load, dump).1.None?
    ensures Cycle(d, a + b, role, complete, load, dump)
         == Cycle(Cycle(d, a, role, complete, load, dump).0, b, role, complete, load, dump)
    decreases |a|
  {
    if a == [] {
      assert a + b == b;
    } else {
      assert (a + b)[0] == a[0] && (a + b)[1..] == a[1..] + b;
      var name := a[0];
      if !EndsWith(name, ".pptx") {
        CycleAppend(d, a[1..], b, role, complete, load, dump);
      } else if name in d.uploads {
        match ChatOutcome(role, load(d.uploads[name]), complete)
        case Err(e) =>
        case Ok(answers) =>
          CycleAppend(Commit(d, name, dump(answers)), a[1..], b, role, complete, load, dump);
      }
    }
  }

  /** When `chat_process` raises on the listed file `k`, the pass ends there with that
      error: the directories are as the files before `k` left them, so the failing upload
      stays in place and every `.pptx` file before it has been moved to the outputs. */
  lemma CycleStopsOnFailure(d: Dirs, listing: seq<string>, role: string, complete: Completion,
                            load: Bytes -> Option<Presentation>, dump: seq<string> -> string, k: nat)
    requires k < |listing| && EndsWith(listing[k], ".pptx")
    requires Cycle(d, listing[..k], role, complete, load, dump).1.None?
    requires listing[k] in Cycle(d, listing[..k], role, complete, load, dump).0.uploads
    requires ChatOutcome(role, load(Cycle(d, listing[..k], role, complete, load, dump).0.uploads[listing[k]]), complete).Err?
    ensures var before := Cycle(d, listing[..k], role, complete, load, dump).0;
      Cycle(d, listing, role, complete, load, dump)
        == (before, Some(ChatFailed(ChatOutcome(role, load(before.uploads[listing[k]]), complete).error)))
    ensures forall j :: 0 <= j < k && EndsWith(listing[j], ".pptx") ==>
      var r := Cycle(d, listing, role, complete, load, dump).0;
      listing[j] !in r.uploads && OutputName(listing[j]) in r.outputs
  {
    var before := Cycle(d, listing[..k], role, complete, load, dump).0;
    assert listing == listing[..k] + listing[k..];
    CycleAppend(d, listing[..k], listing[k..], role, complete, load, dump);
    assert listing[k..][0] == listing[k];
    CycleMovesListed(d, listing[..k], role, complete, load, dump);
    forall j | 0 <= j < k && EndsWith(listing[j], ".pptx")
      ensures listing[j] !in before.uploads && OutputName(listing[j]) in before.outputs
    {
      assert listing[..k][j] == listing[j];
    }
  }
}
