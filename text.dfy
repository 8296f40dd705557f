/** String operations of Python's `str`, `os.path` and `int` that the pipeline relies on,
    written out over `seq<char>`. */
module Text {

  datatype Option<T> = None | Some(value: T)

  datatype Result<T, E> = Ok(value: T) | Err(error: E)

  /** Python's `str.isspace()` for one character. */
  predicate IsSpace(c: char) {
    || ('\t' <= c <= '\r')
    || ('\U{1C}' <= c <= ' ')
    || c == '\U{85}' || c == '\U{A0}' || c == '\U{1680}'
    || ('\U{2000}' <= c <= '\U{200A}')
    || c == '\U{2028}' || c == '\U{2029}' || c == '\U{202F}' || c == '\U{205F}' || c == '\U{3000}'
  }

  /** The string holds at least one character that is not white space. */
  predicate HasText(s: string) {
    exists i :: 0 <= i < |s| && !IsSpace(s[i])
  }

  /** `s.lstrip()`: drops the leading white space and nothing else. */
  function StripStart(s: string): (r: string)
    ensures |r| <= |s| && r == s[|s| - |r|..]
    ensures r != [] ==> !IsSpace(r[0])
    ensures forall i :: 0 <= i < |s| - |r| ==> IsSpace(s[i])
  {
    if s != [] && IsSpace(s[0]) then StripStart(s[1..]) else s
  }

  /** `s.rstrip()`: drops the trailing white space and nothing else. */
  function StripEnd(s: string): (r: string)
    ensures |r| <= |s| && r == s[..|r|]
    ensures r != [] ==> !IsSpace(r[|r| - 1])
    ensures forall i :: |r| <= i < |s| ==> IsSpace(s[i])
  {
    if s != [] && IsSpace(s[|s| - 1]) then StripEnd(s[..|s| - 1]) else s
  }

  /** Neither end of `s` is white space. */
  predicate TrimmedEnds(s: string) {
    s != "" ==> !IsSpace(s[0]) && !IsSpace(s[|s| - 1])
  }

  /** `s.strip()`: empty exactly when `s` is all white space; otherwise it starts and ends
      with a character that is not white space. */
  function Strip(s: string): (r: string)
    ensures r == "" <==> !HasText(s)
    ensures TrimmedEnds(r)
  {
    StripParts(s);
    StripEnd(StripStart(s))
  }

  lemma StripParts(s: string)
    ensures var r := StripEnd(StripStart(s));
      (r == "" <==> !HasText(s)) && TrimmedEnds(r)
  {
    var t := StripStart(s);
    var r := StripEnd(t);
    if r != "" {
      assert t[0] == r[0];
    }
  }

  /** `''.join(parts)`. */
  function Join(parts: seq<string>): (r: string)
    ensures r == "" <==> forall i :: 0 <= i < |parts| ==> parts[i] == ""
  {
    if parts == [] then "" else parts[0] + Join(parts[1..])
  }

  /** Python's `sub in s`: a substring test, true for the empty `sub`. */
  predicate Contains(s: string, sub: string) {
    exists i | 0 <= i <= |s| - |sub| :: OccursAt(s, sub, i)
  }

  predicate OccursAt(s: string, sub: string, i: int) {
    0 <= i <= |s| - |sub| && s[i..i + |sub|] == sub
  }

  /** `s.endswith(suffix)`. */
  predicate EndsWith(s: string, suffix: string) {
    |suffix| <= |s| && s[|s| - |suffix|..] == suffix
  }

  /** `s.rfind(c)`: the last position holding `c`, or -1. */
  function LastIndexOf(s: string, c: char): (r: int)
    ensures -1 <= r < |s|
    ensures r >= 0 ==> s[r] == c
    ensures forall j :: r < j < |s| ==> s[j] != c
  {
    if s == [] then -1
    else if s[|s| - 1] == c then |s| - 1
    else LastIndexOf(s[..|s| - 1], c)
  }

  /** `s.count(c)` for one character. */
  function Occurrences(s: string, c: char): nat {
    if s == [] then 0 else Occurrences(s[..|s| - 1], c) + (if s[|s| - 1] == c then 1 else 0)
  }

  /** `c` does not occur in `s`. */
  predicate Lacks(s: string, c: char) {
    forall k :: 0 <= k < |s| ==> s[k] != c
  }

  /** Joining two strings without `c` gives a string without `c`. */
  lemma LacksAppend(a: string, b: string, c: char)
    requires Lacks(a, c) && Lacks(b, c)
    ensures Lacks(a + b, c)
  {
    forall k | 0 <= k < |a + b|
      ensures (a + b)[k] != c
    {
      if k >= |a| {
        assert (a + b)[k] == b[k - |a|];
      }
    }
  }

  /** The root `os.path.splitext` leaves is a prefix of its argument, so it lacks what the
      argument lacks. */
  lemma StemLacks(p: string, c: char)
    requires Lacks(p, c)
    ensures Lacks(SplitExt(p).0, c)
  {
    var stem := SplitExt(p).0;
    assert p == stem + SplitExt(p).1;
    forall k | 0 <= k < |stem|
      ensures stem[k] != c
    {
      assert stem[k] == p[k];
    }
  }

  /** `s.rsplit(sep, 2)`: at most two splits, taken from the right. Three fields join back
      into `s` around two separators, and the last two hold no separator. */
  function RSplit2(s: string, sep: char): (parts: seq<string>)
    ensures 1 <= |parts| <= 3
    ensures |parts| == 3 ==> s == parts[0] + [sep] + parts[1] + [sep] + parts[2]
    ensures |parts| == 3 ==> Lacks(parts[1], sep) && Lacks(parts[2], sep)
    ensures |parts| == 3 ==> parts[2] == AfterLast(s, sep)
  {
    var j := LastIndexOf(s, sep);
    if j < 0 then [s]
    else
      var i := LastIndexOf(s[..j], sep);
      if i < 0 then [s[..j], s[j + 1..]]
      else
        assert s == s[..i] + [sep] + s[i + 1..j] + [sep] + s[j + 1..];
        [s[..i], s[i + 1..j], s[j + 1..]]
  }

  /** `os.path.splitext(p)` (POSIX): the extension starts at the last dot of the last path
      component, unless everything before that dot in the component is dots. */
  function SplitExt(p: string): (r: (string, string))
    ensures r.0 + r.1 == p
    ensures r.1 == "" || (r.1[0] == '.' && forall k :: 0 < k < |r.1| ==> r.1[k] != '.' && r.1[k] != '/')
  {
    var sep := LastIndexOf(p, '/');
    var dot := LastIndexOf(p, '.');
    if dot > sep && exists k :: sep + 1 <= k < dot && p[k] != '.' then
      (p[..dot], p[dot..])
    else
      (p, "")
  }

  /** The text after the last `c` of `s`: all of `s` when `c` does not occur. */
  function AfterLast(s: string, c: char): (r: string)
    ensures EndsWith(s, r) && Lacks(r, c)
    ensures |r| < |s| ==> s[|s| - |r| - 1] == c
  {
    s[LastIndexOf(s, c) + 1..]
  }

  /** `os.path.basename(p)` (POSIX). */
  function Basename(p: string): string {
    AfterLast(p, '/')
  }

  /** The text after the last line break. */
  function LastLine(s: string): string {
    AfterLast(s, '\n')
  }

  /** Python's `str(d)` for one digit. */
  function DigitChar(d: nat): (c: char)
    requires d < 10
  {
    ['0', '1', '2', '3', '4', '5', '6', '7', '8', '9'][d]
  }

  predicate IsDigit(c: char) {
    '0' <= c <= '9'
  }

  function DigitValue(c: char): nat
    requires IsDigit(c)
  {
    (c as int - '0' as int) as nat
  }

  /** `str(n)` for a natural number. */
  function NatToDecimal(n: nat): (r: string)
    ensures r != ""
    ensures forall k :: 0 <= k < |r| ==> IsDigit(r[k])
  {
    if n < 10 then [DigitChar(n)] else NatToDecimal(n / 10) + [DigitChar(n % 10)]
  }

  /** `n` written with exactly `width` digits, with leading zeros (`%02d`, `%04d`). */
  function PaddedDecimal(n: nat, width: nat): (r: string)
    ensures |r| == width
    ensures forall k :: 0 <= k < |r| ==> IsDigit(r[k])
  {
    if width == 0 then "" else PaddedDecimal(n / 10, width - 1) + [DigitChar(n % 10)]
  }

  /** `int(s)` for a string of decimal digits. */
  function ParseDecimal(s: string): nat
    requires forall k :: 0 <= k < |s| ==> IsDigit(s[k])
  {
    if s == [] then 0 else ParseDecimal(s[..|s| - 1]) * 10 + DigitValue(s[|s| - 1])
  }

  function Pow10(width: nat): nat {
    if width == 0 then 1 else 10 * Pow10(width - 1)
  }

  lemma DigitRoundTrip(d: nat)
    requires d < 10
    ensures IsDigit(DigitChar(d)) && DigitValue(DigitChar(d)) == d
  {
  }

  /** `int(str(n)) == n`. */
  lemma {:induction false} DecimalRoundTrip(n: nat)
    ensures ParseDecimal(NatToDecimal(n)) == n
  {
    DigitRoundTrip(n % 10);
    if n >= 10 {
      DecimalRoundTrip(n / 10);
      var s := NatToDecimal(n);
      assert s[..|s| - 1] == NatToDecimal(n / 10);
    }
  }

  /** Reading back a zero-padded number gives the number, when it fits in the width. */
  lemma {:induction false} PaddedRoundTrip(n: nat, width: nat)
    requires n < Pow10(width)
    ensures ParseDecimal(PaddedDecimal(n, width)) == n
  {
    if width > 0 {
      DigitRoundTrip(n % 10);
      PaddedRoundTrip(n / 10, width - 1);
      var s := PaddedDecimal(n, width);
      assert s[..|s| - 1] == PaddedDecimal(n / 10, width - 1);
    }
  }

  /** A character that does not occur after a prefix leaves the prefix's last position in place. */
  lemma {:induction false} LastIndexOfAppend(a: string, b: string, c: char)
    requires forall k :: 0 <= k < |b| ==> b[k] != c
    ensures LastIndexOf(a + b, c) == LastIndexOf(a, c)
  {
    if b != [] {
      assert (a + b)[..|a + b| - 1] == a + b[..|b| - 1];
      LastIndexOfAppend(a, b[..|b| - 1], c);
    } else {
      assert a + b == a;
    }
  }

  /** The last `c` of `a + [c] + b`, when `b` holds no `c`, is the one between them. */
  lemma LastIndexOfSeparator(a: string, b: string, c: char)
    requires forall k :: 0 <= k < |b| ==> b[k] != c
    ensures LastIndexOf(a + [c] + b, c) == |a|
  {
    LastIndexOfAppend(a + [c], b, c);
    assert (a + [c])[..|a + [c]| - 1] == a;
  }

  /** `rfind` fails exactly when the character does not occur, and otherwise one occurrence
      lies at the found position and the rest before it. */
  lemma {:induction false} LastIndexOfCounts(s: string, c: char)
    ensures LastIndexOf(s, c) < 0 <==> Occurrences(s, c) == 0
    ensures LastIndexOf(s, c) >= 0 ==>
      Occurrences(s, c) == Occurrences(s[..LastIndexOf(s, c)], c) + 1
  {
    if s != [] {
      LastIndexOfCounts(s[..|s| - 1], c);
      if s[|s| - 1] != c {
        var j := LastIndexOf(s, c);
        if j >= 0 {
          assert s[..|s| - 1][..j] == s[..j];
        }
      }
    }
  }

  /** `s.rsplit(sep, 2)` yields three fields exactly when `sep` occurs at least twice. */
  lemma RSplit2Fields(s: string, sep: char)
    ensures |RSplit2(s, sep)| == 3 <==> Occurrences(s, sep) >= 2
  {
    LastIndexOfCounts(s, sep);
    var j := LastIndexOf(s, sep);
    if j >= 0 {
      LastIndexOfCounts(s[..j], sep);
    }
  }

  /** `os.path.splitext(p + ext)` gives back `p` and `ext` when `ext` is a dot followed by
      characters that are neither dots nor slashes and `p` ends in a character that is
      neither. */
  lemma SplitExtAppend(p: string, ext: string)
    requires p != [] && p[|p| - 1] != '.' && p[|p| - 1] != '/'
    requires ext != [] && ext[0] == '.'
    requires forall k :: 0 < k < |ext| ==> ext[k] != '.' && ext[k] != '/'
    ensures SplitExt(p + ext) == (p, ext)
  {
    var s := p + ext;
    var tail := ext[1..];
    assert s == p + ['.'] + tail;
    assert forall k :: 0 <= k < |tail| ==> tail[k] != '.' && tail[k] != '/';
    LastIndexOfSeparator(p, tail, '.');
    LastIndexOfAppend(p + ['.'], tail, '/');
    assert (p + ['.'])[..|p|] == p;
    var sep := LastIndexOf(s, '/');
    assert sep == LastIndexOf(p + ['.'], '/');
    assert sep < |p| - 1 by {
      assert (p + ['.'])[|p|] == '.';
      assert (p + ['.'])[|p| - 1] != '/';
    }
    assert s[|p| - 1] != '.';
  }

  /** `.pptx` and `.json`, the two extensions the pipeline writes, are extensions in the
      sense of `SplitExtAppend`, and hold neither a slash nor an underscore. */
  lemma KnownExtension(ext: string)
    requires ext == ".pptx" || ext == ".json"
    ensures ext != [] && ext[0] == '.'
    ensures forall k :: 0 < k < |ext| ==> ext[k] != '.' && ext[k] != '/'
    ensures Lacks(ext, '/') && Lacks(ext, '_')
  {
    forall k | 0 < k < |ext|
      ensures 'a' <= ext[k] <= 'z'
    {
      if ext == ".pptx" {
        assert ext[k] in {'p', 't', 'x'};
      } else {
        assert ext[k] in {'j', 's', 'o', 'n'};
      }
    }
  }

  /** The substring test succeeds on a part of a concatenation. */
  lemma ContainsPart(a: string, sub: string, b: string)
    ensures Contains(a + sub + b, sub)
  {
    var s := a + sub + b;
    assert OccursAt(s, sub, |a|);
  }
}
