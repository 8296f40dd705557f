# PPTX explainer pipeline: a Dafny model

The system explains lecture presentations slide by slide with a text-generation
service. It has three parts:

- **Web API.** A Flask app with two endpoints.
  - `POST /upload` stores a presentation in `data/uploads` under a key
    `timestamp_uid_name` and returns the uid.
  - `GET /status/<uid>` finds the job by its uid. It looks first among the uploads,
    where the job is *pending*, then among the outputs, where it is *done* and the
    output file's text is the explanation.
- **Explainer.** A polling loop. Each pass lists `data/uploads` and handles every
  `.pptx` file in turn:
  1. Parse the slides into numbered text blocks.
  2. Ask for an explanation of every block, concurrently.
  3. Write the answers as a JSON list into `data/outputs`.
  4. Remove the upload.
- **Command-line helper.** Explains one presentation given by its path and saves
  `<stem>.json`.

The model is split into modules:

| module | file | what it models |
|---|---|---|
| `Text` | `text.dfy` | The Python string operations the code relies on, written out over `seq<char>`. These are `str.strip` (with `str.isspace`'s full set of white-space characters), `''.join`, the substring test `in`, `endswith`, `rfind`, `rsplit(sep, 2)`, POSIX `os.path.splitext` and `basename`, and `str(int)`. |
| `Folders` | `folders.dfy` | The two shared directories. `Dirs` is a value snapshot and `Store` is a class whose methods change the directories in place. |
| `PptxParser` | `pptx_parser.dfy` | `parse_content_to_string_dict` in `explainer/pptx_parser.py`. This covers the slide filter, the text template and the 1-based keys, with the dictionary kept as its sequence of insertions. |
| `CliPptxParser` | `cli_pptx_parser.dfy` | The root `pptx_parser.py`, which opens the file itself. |
| `ChatHelper` | `chat_helper.dfy` | `explainer/presentation_chat_helper.py`: `chat_process` and one pass of `main`'s loop. |
| `CliChatHelper` | `cli_chat_helper.dfy` | The root `presentation_chat_helper.py`: `chat_process` and `main`. |
| `WebApi` | `web_api.dfy` | `web_api/app.py`: the timestamp, the key codec, `upload_file` and `get_file_status`. |
| `Lifecycle` | `lifecycle.dfy` | One job end to end: upload, pending, one explainer pass, done. |

The model keeps the code's quirks as written:

- The storage key starts with the timestamp and keeps the sanitized file name's
  extension.
- A job is found by a substring test on the uid.
- `decode` is `rsplit('_', 2)`. An underscore in the sanitized name therefore shifts
  the fields (`UnderscoreShiftsFields`).
- The explainer's output file ends in `.json.json`: the loop adds `.json` and
  `save_list_as_json` adds another. The status endpoint drops only the last one, so a
  done job reports `<name>.json` (`ProcessedJobIsDone`).
- A failing job ends the whole pass. There is no per-job error handling
  (`CycleStopsOnFailure`).
- The extension is dropped when the status is read; the upload keeps it.
- The not-found reply is the text `not found`, with code 404.
- The explanation in a done reply is the raw text of the output file.

Values from outside the program are parameters of the model. Each one stands for the
following:

| parameter | stands for |
|---|---|
| `uid` | `uuid.uuid4()` |
| `now` | the clock |
| `secureFilename` | werkzeug's `secure_filename` |
| `complete` | one request to the text-generation service, under a system role, with `None` where the request raises |
| `load` / `open` | python-pptx opening a presentation, with `None` where it raises |
| `dump` | `json.dump` of a list of strings |
| the listing passed to a pass | the order `os.listdir` returns |

## Model

| member | source | states |
|---|---|---|
| Text.Strip | explainer/pptx_parser.py:33-39 | `strip()` gives the empty string exactly when the text is all white space; otherwise the result starts and ends with a character that is not white space |
| Text.Join | explainer/pptx_parser.py:34-35 | `''.join` is empty exactly when every part is empty |
| Text.LastIndexOf | web_api/app.py:54 | the rightmost occurrence of the separator (or -1): it holds the separator and nothing after it does |
| Text.RSplit2Fields | web_api/app.py:54 | `rsplit('_', 2)` yields three fields exactly when the name holds at least two underscores |
| Text.SplitExt | web_api/app.py:55 | `splitext` splits the path into root and extension, which concatenate back to the path; the extension is empty or is a dot followed by no dot and no slash |
| Text.SplitExtAppend | explainer/presentation_chat_helper.py:59 | appending an extension to a root not ending in a dot or slash, then splitting, gives back the root and the extension |
| Text.AfterLast | presentation_chat_helper.py:47 | the text after the last separator (`basename`, the last line) ends the string, holds no separator, and is preceded by the separator unless it is the whole string |
| Text.RSplit2 | web_api/app.py:54 | `rsplit('_', 2)` gives one to three fields; three fields join back with underscores into the name, the last two hold no underscore and the last is the text after the last underscore |
| Text.DecimalRoundTrip | explainer/pptx_parser.py:42 | `str(i)` reads back as `i` |
| Text.PaddedRoundTrip | web_api/app.py:34 | a zero-padded field reads back as its value when the value fits the width |
| Text.ContainsPart | web_api/app.py:50 | `uid in filename` holds for every name built around the uid |
| Folders.SaveUpload | web_api/app.py:38 | saving adds or replaces exactly one upload and leaves the rest and the outputs as they were |
| Folders.WriteOutput | explainer/json_utils.py:14-16 | writing adds or replaces exactly one output and leaves the rest and the uploads as they were |
| Folders.RemoveUpload | explainer/presentation_chat_helper.py:65 | removing drops exactly one upload, keeps the contents of the others and leaves the outputs as they were |
| Folders.Store.Save | web_api/app.py:38 | the directories after the save are the snapshot with the upload added |
| Folders.Store.Write | explainer/json_utils.py:14-16 | the directories after the write are the snapshot with the output added |
| Folders.Store.Remove | explainer/presentation_chat_helper.py:65 | the directories after the removal are the snapshot without the upload |
| PptxParser.SlideTitleIff | explainer/pptx_parser.py:33 | the title is empty exactly when the slide has no title shape or its text is all white space |
| PptxParser.JoinStripped | explainer/pptx_parser.py:34-39 | the joined, stripped runs are empty exactly when no run holds text |
| PptxParser.KeptIff | explainer/pptx_parser.py:41 | the filter `Kept` (`title or content or notes`) holds exactly when the title, a content run or a note run holds a character that is not white space |
| PptxParser.FormatSlideCarries | explainer/pptx_parser.py:42 | a slide's text contains its title, content and notes and ends with its number |
| PptxParser.ParseContentToStringDict | explainer/pptx_parser.py:21-45 | the loop inserts, slide by slide, exactly the entries of the specification `Parse` |
| PptxParser.ParseLength | explainer/pptx_parser.py:30-45 | there are never more entries than slides |
| PptxParser.ParseKeyBound | explainer/pptx_parser.py:32-43 | every key is a slide number from 1 to the number of slides |
| PptxParser.ParseEntry | explainer/pptx_parser.py:41-43 | every entry belongs to a kept slide in range, is keyed by its number and holds that slide's text |
| PptxParser.ParseIncreasing | explainer/pptx_parser.py:32-43 | keys are inserted in strictly increasing order, so the dictionary's order is slide order and nothing is overwritten |
| PptxParser.ParseDict | explainer/pptx_parser.py:30-45 | the dictionary holds key `i` exactly when slide `i` is kept, and maps it to that slide's formatted text |
| PptxParser.SlideNumberMatchesKey | explainer/pptx_parser.py:42 | the last line of every entry states the entry's own key as the slide number |
| CliPptxParser.ParseContentToStringDict | pptx_parser.py:4-29 | an unreadable file yields nothing; otherwise the result is the same parse as the explainer's |
| ChatHelper.Chat.SetSystemRole | explainer/presentation_chat_helper.py:24 | the chat's system role becomes the given role |
| ChatHelper.PromptNames | explainer/presentation_chat_helper.py:29-31 | the prompt contains the slide's text and the presentation's subject |
| ChatHelper.PromptsNameEntries | explainer/presentation_chat_helper.py:28-33 | prompt `i` contains entry `i`'s text and the common subject |
| ChatHelper.AskAll | explainer/presentation_chat_helper.py:27-34 | gathering fails exactly when some request fails; otherwise the answers are in prompt order, one per prompt |
| ChatHelper.Explain | explainer/presentation_chat_helper.py:25-34 | an empty parse has no subject and fails; a failing request fails the whole; otherwise answer `i` is the answer to slide entry `i` with the first entry as the subject |
| ChatHelper.Gather | explainer/presentation_chat_helper.py:26-34 | asking the entries one by one gives exactly the explanation `Explain` specifies under the chat's role |
| ChatHelper.ChatProcess | explainer/presentation_chat_helper.py:12-35 | the role is set and the result is the presentation's explanation, or the error that `chat_process` raises |
| ChatHelper.OutputName | explainer/presentation_chat_helper.py:59-61 | the output name ends in `.json.json` and, without that suffix, is a prefix of the upload's name |
| ChatHelper.Commit | explainer/presentation_chat_helper.py:59-65 | writing the output, and then removing the upload, loses no job |
| ChatHelper.RunCycle | explainer/presentation_chat_helper.py:47-65 | the directories and the error after one pass are those of the specification `Cycle`, and every upload present at the start is afterwards still an upload or has its output |
| ChatHelper.Cycle | explainer/presentation_chat_helper.py:51-65 | a pass only removes uploads and only adds outputs |
| ChatHelper.CycleAppend | explainer/presentation_chat_helper.py:51-65 | a pass over `a + b` that gets through `a` without an exception goes on over `b` from where `a` left the directories |
| ChatHelper.CycleKeepsJobs | explainer/presentation_chat_helper.py:51-65 | whatever happens in a pass, a job waiting or done at its start is waiting or done at its end |
| ChatHelper.RemoveFirstLosesJob | explainer/presentation_chat_helper.py:61-65 | removing before writing would lose a job; writing keeps it |
| ChatHelper.CycleMovesListed | explainer/presentation_chat_helper.py:51-65 | a pass that ends without an exception has removed every listed `.pptx` upload and written its output |
| ChatHelper.CycleLeavesOthers | explainer/presentation_chat_helper.py:51-53 | uploads that are not listed, or not `.pptx`, keep their contents |
| ChatHelper.CycleStopsOnFailure | explainer/presentation_chat_helper.py:51-65 | when `chat_process` raises on the `k`-th listed file, the pass ends with that error, the directories are as the first `k` files left them, and every earlier `.pptx` file has been moved to its output |
| CliChatHelper.ChatProcess | presentation_chat_helper.py:11-34 | the role is set and the result is the explanation of the presentation at the path, or the error raised |
| CliChatHelper.SavedNameIsLocal | presentation_chat_helper.py:47-48 | the saved name ends in `.json` and holds no slash, so it lands in the working directory |
| CliChatHelper.SavedNameOfPresentation | presentation_chat_helper.py:47 | a presentation `dir/stem.ext` is saved as `stem.json` |
| CliChatHelper.SaveExplanation | presentation_chat_helper.py:37-48 | an error in `chat_process` saves nothing; otherwise the answers are saved, dumped, as `stem.json` |
| WebApi.FormatTimestamp | web_api/app.py:34 | the timestamp is fourteen digits |
| WebApi.TimestampRoundTrip | web_api/app.py:34 | each of the six fields reads back from its digits |
| WebApi.NewFilename | web_api/app.py:35 | the key starts with the timestamp and an underscore, ends with an underscore and the name, and contains the uid |
| WebApi.DecodeFilename | web_api/app.py:54 | the unpacking succeeds exactly when the key holds at least two underscores; then the fields rebuild the key, the last two hold no underscore, and the name is the text after the last underscore |
| WebApi.FilenameRoundTrip | web_api/app.py:35-54 | with no underscore in the uid or the name, decoding a key gives back its timestamp, uid and name |
| WebApi.UnderscoreShiftsFields | web_api/app.py:54 | an underscore in the name shifts the fields: the uid joins the timestamp and part of the name is taken for the uid |
| WebApi.Describe | web_api/app.py:52-72 | a found file is never "not found"; the unpacking fails exactly when its name holds fewer than two underscores; a pending reply has no explanation and a done reply carries the file's text; the reported timestamp and name come from the file name |
| WebApi.GetFileStatus | web_api/app.py:45-75 | a pending reply comes from an upload whose name contains the uid; a done reply comes from an output whose name contains the uid, with that output's text |
| WebApi.UploadFile | web_api/app.py:19-40 | no file part, or an empty filename, is rejected with its message and changes nothing; otherwise exactly one upload is saved under the timestamped key and the uid is returned |
| WebApi.FirstContaining | web_api/app.py:50 | nothing is found exactly when no listed name contains the uid; otherwise the hit is the first listed name that contains it |
| WebApi.FirstContainingUnique | web_api/app.py:60 | when one listed name alone contains the uid, that name is found, whatever the order |
| WebApi.UploadsSearchedFirst | web_api/app.py:49-57 | once an upload contains the uid, the outputs make no difference and the answer is pending (or the unpacking error) |
| WebApi.NotFoundIff | web_api/app.py:45-75 | the answer is "not found" exactly when no file in either directory contains the uid |
| WebApi.DoneReadsOutput | web_api/app.py:59-72 | with no matching upload and one matching output, the answer is "done" with that file's text |
| Lifecycle.UploadedJobIsPending | web_api/app.py:35-57 | right after an upload with a fresh uid, the status is pending with the name (extension dropped) and the upload's timestamp |
| Lifecycle.PassCommitsUpload | explainer/presentation_chat_helper.py:51-65 | a pass over the new upload, when its slides are explained, removes it and writes its answers to the `.json.json` output |
| Lifecycle.OutputNameOfUpload | explainer/presentation_chat_helper.py:59-61 | the output of `ts_uid_base.pptx` is named `ts_uid_base.json.json` |
| Lifecycle.DescribeOutput | web_api/app.py:68-72 | that output name is reported as `base.json` with the upload's timestamp |
| Lifecycle.ProcessedJobIsDone | web_api/app.py:59-72 | after the pass the status is done, with the dumped answers as the explanation |

## Left out

- HTTP: Flask routing, JSON bodies and status codes. The replies are datatypes, and `UploadStatusCode` / `StatusCode` give their codes.
- Reading the clock, `uuid4` and werkzeug's `secure_filename` are parameters.
- Filesystem I/O: saving, reading, writing and removing files are map updates on the two directories. Directory creation at start-up is left out.
- `json.dump` is a parameter. JSON encoding is not modelled.
- python-pptx is left out: the model reads a slide through its title and text runs. Loading a presentation is a parameter, and so is `parse_from_binary_file_to_pptx` in `explainer/pptx_parser.py`. `chat_process` passes the file path to a parser that expects an opened presentation; the model feeds the parser the loaded presentation.
- The OpenAI wrappers in `openai_api.py` and `explainer/openai_api.py` are a parameter: each request is a function of the system role and the prompt. Three things are not modelled:
  - the root wrapper's growing message history;
  - the root wrapper names its role setter `set_system`, not `set_system_role`, so `chat.set_system_role(chat_role)` at `presentation_chat_helper.py:23` raises `AttributeError`;
  - the root wrapper's `generate_response` (`openai_api.py:13`) is a plain `def`, not `async def`. So `asyncio.create_task(chat.generate_response(...))` at `presentation_chat_helper.py:28` raises `TypeError`, after the first request has already been sent. The `AttributeError` above comes first and hides it.
- As written, each `chat_process` raises on every call:
  - the explainer's, at `presentation.slides` (`explainer/pptx_parser.py:32`), because it passes a path where the parser expects an opened presentation;
  - the root one, at `presentation_chat_helper.py:23`.

  `ChatHelper.ChatProcess` and `CliChatHelper.ChatProcess` model the code as it was meant to work: the presentation is loaded, the role is set, and every request is awaited.
- Concurrency: `asyncio.gather` is modelled by its result (answers in argument order, the first exception propagated). The order in which requests run is not modelled.
- Concurrency between the web API and the explainer is not modelled. Each lemma is about one operation on one snapshot of the directories.
- The explainer's `while True` loop and its ten-second sleep: the model is one pass. Once a pass raises, `main` ends and no later pass runs.
- Printing and argument parsing (`argparse`, `print`) are left out.
- `python_client/web_api_client.py`, `tests/system_tests.py` and `config.py` are not part of this model.
- WebApi.FormatTimestamp: requires a year from 1000 to 9999, where `%Y` gives four digits. Other years are not modelled.
- Folders.Store.Remove: requires the upload to exist, which holds in the loop because it was just read. The exception `os.remove` raises otherwise is not modelled.
