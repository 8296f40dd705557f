/** `presentation_chat_helper.py`: the command-line variant, which explains one
    presentation given by its path and saves the answers next to the working directory. */
module CliChatHelper {
  import opened Text
  import opened PptxParser
  import CliPptxParser
  import opened ChatHelper

  /** A file written by `save_list_as_json`. */
  datatype SavedFile = SavedFile(name: string, text: string)

  /** `chat_process(chat, presentation_path, chat_role)`, parsing through
      `pptx_parser.parse_content_to_string_dict(path)`. */
  method ChatProcess(chat: Chat, path: string, role: string, open: string -> Option<Presentation>, complete: Completion)
    returns (r: Result<seq<string>, ChatError>)
    modifies chat
    ensures chat.systemRole == role
    ensures r == ChatOutcome(role, open(path), complete)
  {
    chat.SetSystemRole(role);
    var parsed := CliPptxParser.ParseContentToStringDict(open, path);
    if parsed.None? {
      return Err(UnreadablePresentation);
    }
    r := Gather(chat, parsed.value, complete);
  }

  /** `os.path.splitext(os.path.basename(path))[0]`, then the `.json` that
      `save_list_as_json` appends. */
  function SavedName(path: string): string {
    SplitExt(Basename(path)).0 + ".json"
  }

  /** The saved name ends in `.json` and holds no slash: the file lands in the working
      directory, whatever directory the presentation came from. */
  lemma SavedNameIsLocal(path: string)
    ensures EndsWith(SavedName(path), ".json")
    ensures Lacks(SavedName(path), '/')
  {
    var stem := SplitExt(Basename(path)).0;
    assert (stem + ".json")[|stem|..] == ".json";
    KnownExtension(".json");
    StemLacks(Basename(path), '/');
    LacksAppend(stem, ".json", '/');
  }

  /** For a presentation `dir/stem.ext`, the answers land in `stem.json` in the working
      directory. */
  lemma SavedNameOfPresentation(dir: string, stem: string, ext: string)
    requires stem != [] && stem[|stem| - 1] != '.'
    requires forall k :: 0 <= k < |stem| ==> stem[k] != '/'
    requires ext != [] && ext[0] == '.' && forall k :: 0 < k < |ext| ==> ext[k] != '.' && ext[k] != '/'
    ensures SavedName(dir + "/" + stem + ext) == stem + ".json"
  {
    var file := stem + ext;
    var path := dir + "/" + stem + ext;
    assert forall k :: 0 <= k < |file| ==> file[k] != '/';
    LastIndexOfSeparator(dir, file, '/');
    assert path == dir + ['/'] + file;
    assert path[|dir| + 1..] == file;
    assert Basename(path) == file;
    SplitExtAppend(stem, ext);
  }

  /** `main(presentation_path, chat_role)`: a fresh chat client, the answers of
      `chat_process`, saved as one JSON list; an exception from `chat_process` leaves
      `main` and nothing is saved. `dump` stands for `json.dump`. */
  method SaveExplanation(path: string, role: string, open: string -> Option<Presentation>, complete: Completion,
              dump: seq<string> -> string)
    returns (saved: Result<SavedFile, ChatError>)
    ensures ChatOutcome(role, open(path), complete).Err? ==> saved == Err(ChatOutcome(role, open(path), complete).error)
    ensures ChatOutcome(role, open(path), complete).Ok? ==>
      saved == Ok(SavedFile(SavedName(path), dump(ChatOutcome(role, open(path), complete).value)))
  {
    var chat := new Chat();
    var chatAnswers := ChatProcess(chat, path, role, open, complete);
    if chatAnswers.Err? {
      return Err(chatAnswers.error);
    }
    var filename := SplitExt(Basename(path)).0;
    saved := Ok(SavedFile(filename + ".json", dump(chatAnswers.value)));
  }
}
