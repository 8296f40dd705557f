/** `pptx_parser.py`: the same slide filter and template, but the function opens the
    presentation itself from a path. */
module CliPptxParser {
  import opened Text
  import opened PptxParser

  /** `parse_content_to_string_dict(pptx_path)`. `open` stands for `Presentation(path)`,
      which yields `None` where python-pptx raises (a missing or unreadable file); the
      exception then leaves the function with nothing parsed. */
  method ParseContentToStringDict(open: string -> Option<Presentation>, path: string)
    returns (parsed: Option<seq<Entry>>)
    ensures open(path).None? ==> parsed.None?
    ensures open(path).Some? ==> parsed == Some(Parse(open(path).value))
  {
    var presentation := open(path);
    if presentation.None? {
      return None;
    }
    var entries := PptxParser.ParseContentToStringDict(presentation.value);
    parsed := Some(entries);
  }
}
