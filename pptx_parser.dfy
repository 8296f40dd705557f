/** `explainer/pptx_parser.py`: turning the slides of a presentation into the numbered
    text blocks that are sent for explanation. */
module PptxParser {
  import opened Text

  /** What the parser reads from one python-pptx slide: the text of the title shape, if the
      slide has one, and the text runs of the slide's shapes and of its notes page, in
      shape, paragraph and run order. */
  datatype Slide = Slide(title: Option<string>, contentRuns: seq<string>, noteRuns: seq<string>)

  type Presentation = seq<Slide>

  /** One `parsed_content[i] = slide_content` assignment. */
  datatype Entry = Entry(key: nat, value: string)

  /** `slide.shapes.title.text.strip() if slide.shapes.title else ""`. */
  function SlideTitle(slide: Slide): string {
    match slide.title
    case Some(t) => Strip(t)
    case None => ""
  }

  /** The title is empty exactly when there is no title shape or its text is all white
      space. */
  lemma SlideTitleIff(slide: Slide)
    ensures SlideTitle(slide) == "" <==> slide.title.None? || !HasText(slide.title.value)
  {
  }

  /** `''.join(run.text.strip() for ...)`. */
  function JoinStripped(runs: seq<string>): (r: string)
    ensures r == "" <==> forall i :: 0 <= i < |runs| ==> !HasText(runs[i])
  {
    var stripped := seq(|runs|, i requires 0 <= i < |runs| => Strip(runs[i]));
    assert forall i :: 0 <= i < |runs| ==> stripped[i] == Strip(runs[i]);
    Join(stripped)
  }

  function SlideContent(slide: Slide): string {
    JoinStripped(slide.contentRuns)
  }

  function SlideNotes(slide: Slide): string {
    JoinStripped(slide.noteRuns)
  }

  /** `if title or content or notes`. */
  predicate Kept(slide: Slide) {
    SlideTitle(slide) != "" || SlideContent(slide) != "" || SlideNotes(slide) != ""
  }

  /** A slide is kept exactly when its title, one of its content runs or one of its note
      runs holds a character that is not white space. */
  lemma KeptIff(slide: Slide)
    ensures Kept(slide) <==>
      || (slide.title.Some? && HasText(slide.title.value))
      || (exists i :: 0 <= i < |slide.contentRuns| && HasText(slide.contentRuns[i]))
      || (exists i :: 0 <= i < |slide.noteRuns| && HasText(slide.noteRuns[i]))
  {
  }

  /** The f-string of one kept slide. */
  function FormatSlide(title: string, content: string, notes: string, number: nat): string {
    "title: " + title + "\ncontent: " + content + "\nnotes: " + notes
      + "\nslide number: " + NatToDecimal(number)
  }

  /** Text filled into a template of four labels carries each field, and ends with the
      last one. */
  lemma TemplateCarries(l1: string, t: string, l2: string, c: string, l3: string, n: string, l4: string, d: string)
    ensures var r := l1 + t + l2 + c + l3 + n + l4 + d;
      Contains(r, t) && Contains(r, c) && Contains(r, n) && EndsWith(r, d)
  {
    var r := l1 + t + l2 + c + l3 + n + l4 + d;
    assert r == l1 + t + (l2 + c + l3 + n + l4 + d);
    ContainsPart(l1, t, l2 + c + l3 + n + l4 + d);
    assert r == (l1 + t + l2) + c + (l3 + n + l4 + d);
    ContainsPart(l1 + t + l2, c, l3 + n + l4 + d);
    assert r == (l1 + t + l2 + c + l3) + n + (l4 + d);
    ContainsPart(l1 + t + l2 + c + l3, n, l4 + d);
  }

  /** A slide's text carries its title, content and notes, and ends with its number. */
  lemma FormatSlideCarries(title: string, content: string, notes: string, number: nat)
    ensures var r := FormatSlide(title, content, notes, number);
      Contains(r, title) && Contains(r, content) && Contains(r, notes) && EndsWith(r, NatToDecimal(number))
  {
    TemplateCarries("title: ", title, "\ncontent: ", content, "\nnotes: ", notes, "\nslide number: ", NatToDecimal(number));
  }

  function EntryText(slide: Slide, number: nat): string {
    FormatSlide(SlideTitle(slide), SlideContent(slide), SlideNotes(slide), number)
  }

  /** The entries the loop has inserted after the first `|slides|` slides, numbered from 1. */
  function Parse(slides: Presentation): seq<Entry> {
    if slides == [] then []
    else
      var n := |slides|;
      var last := slides[n - 1];
      Parse(slides[..n - 1]) + (if Kept(last) then [Entry(n, EntryText(last, n))] else [])
  }

  /** One more slide adds at most its own entry. */
  lemma ParseStep(slides: Presentation, i: nat)
    requires 1 <= i <= |slides|
    ensures Parse(slides[..i]) ==
      Parse(slides[..i - 1]) + (if Kept(slides[i - 1]) then [Entry(i, EntryText(slides[i - 1], i))] else [])
  {
    assert slides[..i][..i - 1] == slides[..i - 1];
  }

  /** The dictionary that a sequence of assignments leaves behind. */
  function AsDict(entries: seq<Entry>): map<nat, string> {
    if entries == [] then map[]
    else
      var e := entries[|entries| - 1];
      AsDict(entries[..|entries| - 1])[e.key := e.value]
  }

  /** `parse_content_to_string_dict`: the result, in insertion order. */
  method ParseContentToStringDict(presentation: Presentation) returns (parsed: seq<Entry>)
    ensures parsed == Parse(presentation)
  {
    parsed := [];
    var i := 1;
    while i <= |presentation|
      invariant 1 <= i <= |presentation| + 1
      invariant parsed == Parse(presentation[..i - 1])
    {
      var slide := presentation[i - 1];
      var title := SlideTitle(slide);
      var content := SlideContent(slide);
      var notes := SlideNotes(slide);
      if title != "" || content != "" || notes != "" {
        parsed := parsed + [Entry(i, FormatSlide(title, content, notes, i))];
      }
      ParseStep(presentation, i);
      i := i + 1;
    }
    assert presentation[..|presentation|] == presentation;
  }

  /** There are at most as many entries as slides. */
  lemma {:induction false} ParseLength(slides: Presentation)
    ensures |Parse(slides)| <= |slides|
  {
    if slides != [] {
      ParseLength(slides[..|slides| - 1]);
    }
  }

  /** No key reaches past the last slide. */
  lemma {:induction false} ParseKeyBound(slides: Presentation, i: nat)
    requires i in AsDict(Parse(slides))
    ensures 1 <= i <= |slides|
  {
    var n := |slides|;
    ParseDictStep(slides);
    if i != n {
      ParseKeyBound(slides[..n - 1], i);
    }
  }

  /** `e` is the assignment of kept slide `e.key` (counting from 1), with its text. */
  predicate EntryOf(slides: Presentation, e: Entry) {
    && 1 <= e.key <= |slides|
    && Kept(slides[e.key - 1])
    && e.value == EntryText(slides[e.key - 1], e.key)
  }

  /** Whether `e` is an entry of a slide among the first `m` does not depend on the
      slides that follow. */
  lemma EntryOfPrefix(slides: Presentation, m: nat, e: Entry)
    requires 1 <= e.key <= m <= |slides|
    ensures EntryOf(slides[..m], e) <==> EntryOf(slides, e)
  {
    assert slides[..m][e.key - 1] == slides[e.key - 1];
  }

  /** Every entry belongs to a kept slide, is keyed by that slide's 1-based number and
      carries that slide's text. */
  lemma {:induction false} ParseEntry(slides: Presentation, j: nat)
    requires j < |Parse(slides)|
    ensures EntryOf(slides, Parse(slides)[j])
  {
    var n := |slides|;
    var init := slides[..n - 1];
    var p := Parse(init);
    var last := slides[n - 1];
    if Kept(last) {
      var e := Entry(n, EntryText(last, n));
      assert Parse(slides) == p + [e];
      if j < |p| {
        assert Parse(slides)[j] == p[j];
        ParseEntry(init, j);
        EntryOfPrefix(slides, n - 1, p[j]);
      } else {
        assert Parse(slides)[j] == e;
      }
    } else {
      assert Parse(slides) == p;
      ParseEntry(init, j);
      EntryOfPrefix(slides, n - 1, p[j]);
    }
  }

  /** Keys are inserted in strictly increasing order, so no assignment overwrites another. */
  lemma {:induction false} ParseIncreasing(slides: Presentation, j: nat, k: nat)
    requires j < k < |Parse(slides)|
    ensures Parse(slides)[j].key < Parse(slides)[k].key
  {
    var n := |slides|;
    var init := slides[..n - 1];
    var p := Parse(init);
    var last := slides[n - 1];
    if k < |p| {
      if Kept(last) {
        assert Parse(slides) == p + [Entry(n, EntryText(last, n))];
      } else {
        assert Parse(slides) == p;
      }
      assert Parse(slides)[j] == p[j] && Parse(slides)[k] == p[k];
      ParseIncreasing(init, j, k);
    } else {
      assert Kept(last) && Parse(slides) == p + [Entry(n, EntryText(last, n))];
      assert Parse(slides)[j] == p[j] && Parse(slides)[k].key == n;
      ParseEntry(init, j);
    }
  }

  /** One more assignment updates the dictionary at its key. */
  lemma AsDictAppend(entries: seq<Entry>, e: Entry)
    ensures AsDict(entries + [e]) == AsDict(entries)[e.key := e.value]
  {
    assert (entries + [e])[..|entries|] == entries;
  }

  /** One more slide sets its own key in the dictionary when it is kept, and changes
      nothing otherwise. */
  lemma ParseDictStep(slides: Presentation)
    requires slides != []
    ensures var n := |slides|; Kept(slides[n - 1]) ==>
      AsDict(Parse(slides)) == AsDict(Parse(slides[..n - 1]))[n := EntryText(slides[n - 1], n)]
    ensures var n := |slides|; !Kept(slides[n - 1]) ==>
      AsDict(Parse(slides)) == AsDict(Parse(slides[..n - 1]))
  {
    var n := |slides|;
    var p := Parse(slides[..n - 1]);
    var last := slides[n - 1];
    if Kept(last) {
      var e := Entry(n, EntryText(last, n));
      assert Parse(slides) == p + [e];
      AsDictAppend(p, e);
    } else {
      assert Parse(slides) == p;
    }
  }

  /** The dictionary holds key `i` exactly when slide `i` (counting from 1) is kept, and
      then maps it to that slide's text. */
  lemma {:induction false} ParseDict(slides: Presentation, i: nat)
    ensures i in AsDict(Parse(slides)) <==> 1 <= i <= |slides| && Kept(slides[i - 1])
    ensures i in AsDict(Parse(slides)) ==> AsDict(Parse(slides))[i] == EntryText(slides[i - 1], i)
  {
    if slides != [] {
      var n := |slides|;
      var init := slides[..n - 1];
      var last := slides[n - 1];
      var d := AsDict(Parse(init));
      ParseDictStep(slides);
      ParseDict(init, i);
      if i == n {
        assert i !in d;
        if Kept(last) {
          assert AsDict(Parse(slides)) == d[n := EntryText(last, n)];
        } else {
          assert AsDict(Parse(slides)) == d;
        }
      } else {
        assert i in AsDict(Parse(slides)) <==> i in d;
        assert i in d ==> AsDict(Parse(slides))[i] == d[i];
        if 1 <= i < n {
          assert init[i - 1] == slides[i - 1];
        }
      }
    }
  }

  /** The number an entry states on its last line, `slide number: <digits>`. */
  function StatedNumber(value: string): Option<nat> {
    var line := LastLine(value);
    if |line| > 14 && line[..14] == "slide number: " then
      var digits := line[14..];
      if forall k :: 0 <= k < |digits| ==> IsDigit(digits[k]) then Some(ParseDecimal(digits)) else None
    else None
  }

  /** Each entry ends by stating its own key as the slide number. */
  lemma SlideNumberMatchesKey(title: string, content: string, notes: string, number: nat)
    ensures StatedNumber(FormatSlide(title, content, notes, number)) == Some(number)
  {
    var digits := NatToDecimal(number);
    var head := "title: " + title + "\ncontent: " + content + "\nnotes: " + notes;
    var tail := "slide number: " + digits;
    assert FormatSlide(title, content, notes, number) == head + ['\n'] + tail;
    assert forall k :: 0 <= k < |tail| ==> tail[k] != '\n';
    LastIndexOfSeparator(head, tail, '\n');
    assert LastLine(head + ['\n'] + tail) == tail;
    assert tail[14..] == digits;
    DecimalRoundTrip(number);
  }
}
