/**
 * The parts of Python's text handling that the log reader relies on:
 * `str.isspace`, `str.strip()`, `str.split()`, `str.split(sep)` and the
 * line-by-line iteration of a file opened in text mode.
 */
module Text {

  /** The characters Python's `str.isspace` accepts: ASCII and Unicode white space. */
  const Spaces: set<char> := {
    '\t', '\n', '\U{0B}', '\U{0C}', '\r', '\U{1C}', '\U{1D}', '\U{1E}', '\U{1F}', ' ',
    '\U{85}', '\U{A0}', '\U{1680}',
    '\U{2000}', '\U{2001}', '\U{2002}', '\U{2003}', '\U{2004}', '\U{2005}',
    '\U{2006}', '\U{2007}', '\U{2008}', '\U{2009}', '\U{200A}',
    '\U{2028}', '\U{2029}', '\U{202F}', '\U{205F}', '\U{3000}'
  }

  /** `c.isspace()`. */
  predicate IsSpace(c: char) {
    c in Spaces
  }

  predicate NoSpace(s: string) {
    forall i :: 0 <= i < |s| ==> !IsSpace(s[i])
  }

  /** The index of the first `c` in `s`, or `|s|` when there is none. */
  function IndexOf(s: string, c: char): (i: nat)
    ensures i <= |s|
    ensures i < |s| ==> s[i] == c
  {
    if s == [] then 0
    else if s[0] == c then 0
    else 1 + IndexOf(s[1..], c)
  }

  /** No `c` comes before the index `IndexOf` finds. */
  lemma {:induction false} IndexOfFirst(s: string, c: char)
    ensures c !in s[..IndexOf(s, c)]
    decreases |s|
  {
    if s != [] && s[0] != c {
      IndexOfFirst(s[1..], c);
      assert s[..IndexOf(s, c)] == [s[0]] + s[1..][..IndexOf(s[1..], c)];
    }
  }

  /** The index of the first white-space character of `s`, or `|s|`. */
  function FirstSpace(s: string): (i: nat)
    ensures i <= |s|
    ensures i < |s| ==> IsSpace(s[i])
  {
    if s == [] then 0
    else if IsSpace(s[0]) then 0
    else 1 + FirstSpace(s[1..])
  }

  /** No white space comes before the index `FirstSpace` finds. */
  lemma {:induction false} FirstSpaceFirst(s: string)
    ensures NoSpace(s[..FirstSpace(s)])
    decreases |s|
  {
    if s != [] && !IsSpace(s[0]) {
      FirstSpaceFirst(s[1..]);
      var w := s[..FirstSpace(s)];
      forall j | 0 <= j < |w| ensures !IsSpace(w[j]) {
        if j > 0 {
          assert w[j] == s[1..][..FirstSpace(s[1..])][j - 1];
        }
      }
    }
  }

  /** `s.lstrip()`: drops the leading white space and nothing else. */
  function StripLeft(s: string): (r: string)
    ensures |r| <= |s|
    ensures r == [] || !IsSpace(r[0])
  {
    if s != [] && IsSpace(s[0]) then StripLeft(s[1..]) else s
  }

  /** `lstrip()` keeps a suffix of its input, and everything it drops is white space. */
  lemma {:induction false} StripLeftDrops(s: string)
    ensures var r := StripLeft(s);
      r == s[|s| - |r|..] && forall j :: 0 <= j < |s| - |r| ==> IsSpace(s[j])
    decreases |s|
  {
    if s != [] && IsSpace(s[0]) {
      var t := s[1..];
      StripLeftDrops(t);
      var r := StripLeft(t);
      assert t[|t| - |r|..] == s[|s| - |r|..];
      forall j | 0 <= j < |s| - |r| ensures IsSpace(s[j]) {
        if j > 0 {
          assert s[j] == t[j - 1];
        }
      }
    }
  }

  /** `s.rstrip()`: drops the trailing white space and nothing else. */
  function StripRight(s: string): (r: string)
    ensures |r| <= |s|
    ensures r == [] || !IsSpace(r[|r| - 1])
  {
    if s != [] && IsSpace(s[|s| - 1]) then StripRight(s[..|s| - 1]) else s
  }

  /** `rstrip()` keeps a prefix of its input, and everything it drops is white space. */
  lemma {:induction false} StripRightDrops(s: string)
    ensures var r := StripRight(s);
      r == s[..|r|] && forall j :: |r| <= j < |s| ==> IsSpace(s[j])
    decreases |s|
  {
    if s != [] && IsSpace(s[|s| - 1]) {
      var t := s[..|s| - 1];
      StripRightDrops(t);
      var r := StripRight(t);
      assert t[..|r|] == s[..|r|];
      forall j | |r| <= j < |s| ensures IsSpace(s[j]) {
        if j < |s| - 1 {
          assert s[j] == t[j];
        }
      }
    }
  }

  /** `s.strip()`. */
  function Strip(s: string): (r: string)
    ensures r == [] || (!IsSpace(r[0]) && !IsSpace(r[|r| - 1]))
  {
    StripRightDrops(StripLeft(s));
    StripRight(StripLeft(s))
  }

  /** A string with no white space at either end is left alone by `strip()`. */
  lemma {:induction false} StripBordered(s: string)
    requires s != [] && !IsSpace(s[0]) && !IsSpace(s[|s| - 1])
    ensures Strip(s) == s
  {
  }

  /** `strip()` removes a trailing newline from an otherwise bordered line. */
  lemma {:induction false} StripNewline(s: string)
    requires s != [] && !IsSpace(s[0]) && !IsSpace(s[|s| - 1])
    ensures Strip(s + "\n") == s
  {
    var t := s + "\n";
    assert StripLeft(t) == t;
    assert t[..|t| - 1] == s;
    assert StripRight(t) == StripRight(s);
    assert StripRight(s) == s;
  }

  /** Fields of `split()`: nonempty and free of white space. */
  predicate Words(fields: seq<string>) {
    forall i :: 0 <= i < |fields| ==> fields[i] != [] && NoSpace(fields[i])
  }

  /**
   * `s.split()` with no separator: the maximal runs of non-white-space
   * characters, in order; never an empty field.
   */
  function SplitWhitespace(s: string): (fields: seq<string>)
    ensures Words(fields)
    decreases |s|
  {
    var t := StripLeft(s);
    if t == [] then []
    else
      var i := FirstSpace(t);
      var rest := SplitWhitespace(t[i..]);
      FirstWord(t);
      ConsFields(t[..i], rest);
      [t[..i]] + rest
  }

  /** The text before the first blank of a string that does not start with one is a word. */
  lemma {:induction false} FirstWord(t: string)
    requires t != [] && !IsSpace(t[0])
    ensures t[..FirstSpace(t)] != [] && NoSpace(t[..FirstSpace(t)])
  {
    FirstSpaceFirst(t);
  }

  /** A word in front of a list of words is a list of words. */
  lemma {:induction false} ConsFields(w: string, rest: seq<string>)
    requires w != [] && NoSpace(w)
    requires Words(rest)
    ensures Words([w] + rest)
  {
    forall i | 0 <= i < |[w] + rest| ensures ([w] + rest)[i] != [] && NoSpace(([w] + rest)[i]) {
      if i > 0 {
        assert ([w] + rest)[i] == rest[i - 1];
      }
    }
  }

  /** The first blank of `x + rest` is where `rest` starts, when `x` has none and `rest` starts with one. */
  lemma {:induction false} FirstSpaceAfter(x: string, rest: string)
    requires NoSpace(x) && rest != [] && IsSpace(rest[0])
    ensures FirstSpace(x + rest) == |x|
  {
    if x == [] {
      assert x + rest == rest;
    } else {
      assert (x + rest)[0] == x[0];
      assert (x + rest)[1..] == x[1..] + rest;
      FirstSpaceAfter(x[1..], rest);
    }
  }

  /** A word with no blank in it has no blank to find. */
  lemma {:induction false} FirstSpaceNone(x: string)
    requires NoSpace(x)
    ensures FirstSpace(x) == |x|
  {
    if x != [] {
      assert NoSpace(x[1..]) by {
        assert forall j :: 0 <= j < |x| - 1 ==> x[1..][j] == x[j + 1];
      }
      FirstSpaceNone(x[1..]);
    }
  }

  /** One word splits into itself. */
  lemma {:induction false} SplitOneWord(y: string)
    requires y != [] && NoSpace(y)
    ensures SplitWhitespace(y) == [y]
  {
    FirstSpaceNone(y);
    assert y[..|y|] == y;
    assert SplitWhitespace(y[|y|..]) == [];
  }

  /** A run of white space, possibly empty. */
  predicate AllSpace(g: string) {
    forall i :: 0 <= i < |g| ==> IsSpace(g[i])
  }

  /** Leading white space produces no field. */
  lemma {:induction false} SplitAfterSpaces(g: string, y: string)
    requires AllSpace(g)
    ensures SplitWhitespace(g + y) == SplitWhitespace(y)
    decreases |g|
  {
    if g == [] {
      assert g + y == y;
    } else {
      var s := g + y;
      assert s[0] == g[0];
      assert s[1..] == g[1..] + y;
      assert AllSpace(g[1..]) by {
        forall j | 0 <= j < |g| - 1 ensures IsSpace(g[1..][j]) {
          assert g[1..][j] == g[j + 1];
        }
      }
      SplitAfterSpaces(g[1..], y);
      assert StripLeft(s) == StripLeft(s[1..]);
    }
  }

  /** A word followed by a blank is the first field, and the rest is split on its own. */
  lemma {:induction false} SplitLeadingWord(x: string, rest: string)
    requires x != [] && NoSpace(x) && rest != [] && IsSpace(rest[0])
    ensures SplitWhitespace(x + rest) == [x] + SplitWhitespace(rest)
  {
    var s := x + rest;
    assert StripLeft(s) == s by {
      assert s[0] == x[0];
    }
    FirstSpaceAfter(x, rest);
    assert s[..|x|] == x;
    assert s[|x|..] == rest;
  }

  /** Two words separated by one blank split into exactly those two words. */
  lemma {:induction false} SplitTwoWords(x: string, y: string)
    requires x != [] && NoSpace(x) && y != [] && NoSpace(y)
    ensures SplitWhitespace(x + " " + y) == [x, y]
  {
    assert x + " " + y == x + (" " + y);
    SplitLeadingWord(x, " " + y);
    assert AllSpace(" ");
    SplitAfterSpaces(" ", y);
    SplitOneWord(y);
  }

  /** The runs of white space around and between fields: every gap but the outer two is nonempty. */
  predicate Gaps(gaps: seq<string>) {
    (forall i :: 0 <= i < |gaps| ==> AllSpace(gaps[i]))
    && forall i :: 0 < i < |gaps| - 1 ==> gaps[i] != []
  }

  /** `gaps[0] + fields[0] + gaps[1] + ... + fields[n - 1] + gaps[n]`. */
  function Interleave(gaps: seq<string>, fields: seq<string>): string
    requires |gaps| == |fields| + 1
    decreases |fields|
  {
    if fields == [] then gaps[0]
    else gaps[0] + fields[0] + Interleave(gaps[1..], fields[1..])
  }

  /** One more gap and field in front. */
  lemma {:induction false} InterleaveCons(g: string, w: string, gaps: seq<string>, fields: seq<string>)
    requires |gaps| == |fields| + 1
    ensures Interleave([g] + gaps, [w] + fields) == g + w + Interleave(gaps, fields)
  {
    assert ([g] + gaps)[1..] == gaps;
    assert ([w] + fields)[1..] == fields;
  }

  /** A run of white space in front of gaps whose first one separates two fields. */
  lemma {:induction false} GapsCons(g: string, gaps: seq<string>)
    requires AllSpace(g) && Gaps(gaps) && (|gaps| >= 2 ==> gaps[0] != [])
    ensures Gaps([g] + gaps)
  {
    var all := [g] + gaps;
    forall i | 0 <= i < |all| ensures AllSpace(all[i]) && (0 < i < |all| - 1 ==> all[i] != []) {
      if i > 0 {
        assert all[i] == gaps[i - 1];
      }
    }
  }

  /** Text that interleaves fields with no gap in front starts with a field character. */
  lemma {:induction false} InterleaveStartsWithWord(gaps: seq<string>, fields: seq<string>)
    requires |gaps| == |fields| + 1 && Words(fields) && fields != [] && gaps[0] == []
    ensures var s := Interleave(gaps, fields); s != [] && !IsSpace(s[0])
  {
    var s := Interleave(gaps, fields);
    assert s == fields[0] + Interleave(gaps[1..], fields[1..]);
    assert s[0] == fields[0][0];
  }

  /** `split()` of a text that is not all white space: its first word, then the split of what follows. */
  lemma {:induction false} SplitFront(s: string)
    requires StripLeft(s) != []
    ensures var t := StripLeft(s); var i := FirstSpace(t);
      0 < i && SplitWhitespace(s) == [t[..i]] + SplitWhitespace(t[i..])
  {
    FirstWord(StripLeft(s));
  }

  /** What `lstrip()` drops is one run of white space in front of what it keeps. */
  lemma {:induction false} StripLeftSplit(s: string)
    ensures var t := StripLeft(s); var lead := s[..|s| - |t|];
      AllSpace(lead) && t == s[|s| - |t|..]
  {
    StripLeftDrops(s);
  }

  /** A text is a prefix, then a suffix `t` of it cut in two. */
  lemma {:induction false} ThreeParts(s: string, t: string, i: nat)
    requires |t| <= |s| && t == s[|s| - |t|..] && i <= |t|
    ensures s == s[..|s| - |t|] + t[..i] + t[i..]
  {
    assert t == t[..i] + t[i..];
  }

  /** Putting a leading run of white space and a first word in front of a covering of the rest. */
  lemma {:induction false} CoversCons(lead: string, w: string, rest: string, gaps: seq<string>, more: seq<string>)
    requires AllSpace(lead) && w != [] && NoSpace(w) && Words(more)
    requires rest == [] || IsSpace(rest[0])
    requires |gaps| == |more| + 1 && Gaps(gaps) && Interleave(gaps, more) == rest
    ensures Gaps([lead] + gaps) && Interleave([lead] + gaps, [w] + more) == lead + w + rest
  {
    if |gaps| >= 2 && gaps[0] == [] {
      InterleaveStartsWithWord(gaps, more);
      assert false;
    }
    GapsCons(lead, gaps);
    InterleaveCons(lead, w, gaps, more);
  }

  /**
   * Every text is its `split()` fields with white space around and between
   * them: the fields lose nothing but white space, and keep their order.
   */
  lemma {:induction false} SplitCovers(s: string)
    ensures exists gaps :: |gaps| == |SplitWhitespace(s)| + 1 && Gaps(gaps) && Interleave(gaps, SplitWhitespace(s)) == s
    decreases |s|
  {
    var t := StripLeft(s);
    if t == [] {
      StripLeftSplit(s);
      var gaps := [s];
      assert Gaps(gaps) by {
        assert gaps[0] == s[..|s| - |t|];
      }
      assert Interleave(gaps, []) == s;
    } else {
      var rest := t[FirstSpace(t)..];
      SplitCovers(rest);
      var gaps :| |gaps| == |SplitWhitespace(rest)| + 1 && Gaps(gaps) && Interleave(gaps, SplitWhitespace(rest)) == rest;
      SplitCoversStep(s, gaps);
    }
  }

  /** A covering of what follows the first word, with the leading white space put in front, covers the whole text. */
  lemma {:induction false} SplitCoversStep(s: string, gaps: seq<string>)
    requires StripLeft(s) != []
    requires var t := StripLeft(s); var rest := t[FirstSpace(t)..];
      |gaps| == |SplitWhitespace(rest)| + 1 && Gaps(gaps) && Interleave(gaps, SplitWhitespace(rest)) == rest
    ensures var all := [s[..|s| - |StripLeft(s)|]] + gaps;
      |all| == |SplitWhitespace(s)| + 1 && Gaps(all) && Interleave(all, SplitWhitespace(s)) == s
  {
    var t := StripLeft(s);
    StripLeftSplit(s);
    var lead := s[..|s| - |t|];
    var i := FirstSpace(t);
    SplitFront(s);
    FirstWord(t);
    var w := t[..i];
    var rest := t[i..];
    ThreeParts(s, t, i);
    CoversCons(lead, w, rest, gaps, SplitWhitespace(rest));
  }

  /** Dropping the first gap and field keeps gaps and words. */
  lemma {:induction false} InterleaveTail(gaps: seq<string>, fields: seq<string>)
    requires |gaps| == |fields| + 1 && Gaps(gaps) && Words(fields) && fields != []
    ensures Gaps(gaps[1..]) && Words(fields[1..])
    ensures Interleave(gaps, fields) == gaps[0] + (fields[0] + Interleave(gaps[1..], fields[1..]))
    ensures var y := Interleave(gaps[1..], fields[1..]); y == [] || (gaps[1] != [] && y[0] == gaps[1][0])
  {
    forall j | 0 <= j < |gaps| - 1 ensures gaps[1..][j] == gaps[j + 1] {
    }
    forall j | 0 <= j < |fields| - 1 ensures fields[1..][j] == fields[j + 1] {
    }
    var y := Interleave(gaps[1..], fields[1..]);
    if fields[1..] != [] {
      assert y == gaps[1] + (fields[1] + Interleave(gaps[2..], fields[2..]));
    }
  }

  /**
   * The converse: fields written with white space around them and at least
   * one blank between two of them split back into exactly those fields.
   */
  lemma {:induction false} SplitInterleave(gaps: seq<string>, fields: seq<string>)
    requires |gaps| == |fields| + 1 && Gaps(gaps) && Words(fields)
    ensures SplitWhitespace(Interleave(gaps, fields)) == fields
    decreases |fields|
  {
    if fields == [] {
      SplitAfterSpaces(gaps[0], []);
      assert gaps[0] + [] == gaps[0];
    } else {
      InterleaveTail(gaps, fields);
      var y := Interleave(gaps[1..], fields[1..]);
      SplitAfterSpaces(gaps[0], fields[0] + y);
      SplitInterleave(gaps[1..], fields[1..]);
      if y == [] {
        assert fields[0] + y == fields[0];
        SplitOneWord(fields[0]);
      } else {
        SplitLeadingWord(fields[0], y);
      }
      assert fields == [fields[0]] + fields[1..];
    }
  }

  /** The inverse of `str.split(sep)`: `sep.join(parts)`. */
  function Join(parts: seq<string>, sep: char): string
    requires parts != []
  {
    if |parts| == 1 then parts[0] else parts[0] + [sep] + Join(parts[1..], sep)
  }

  /**
   * `s.split(sep)` for a one-character separator: every piece between two
   * separators, empty pieces included, so there is always at least one.
   */
  function SplitOn(s: string, sep: char): (parts: seq<string>)
    ensures |parts| >= 1
    ensures forall i :: 0 <= i < |parts| ==> sep !in parts[i]
    ensures Join(parts, sep) == s
    decreases |s|
  {
    var i := IndexOf(s, sep);
    IndexOfFirst(s, sep);
    if i == |s| then
      assert s[..i] == s;
      [s]
    else
      var rest := SplitOn(s[i + 1..], sep);
      assert s == s[..i] + [sep] + s[i + 1..];
      [s[..i]] + rest
  }

  /** Text with no separator splits into one piece: itself. */
  lemma {:induction false} SplitOnAbsent(s: string, sep: char)
    requires sep !in s
    ensures SplitOn(s, sep) == [s]
  {
  }

  /** Whether appending to `text` starts a new line: it is empty or ends with a newline. */
  predicate WellTerminated(text: string) {
    text == [] || text[|text| - 1] == '\n'
  }

  function Concat(parts: seq<string>): string {
    if parts == [] then [] else parts[0] + Concat(parts[1..])
  }

  /**
   * The lines that `for line in file` yields for a file holding `text`:
   * each one ends with its newline, except possibly the last.
   */
  function Lines(text: string): (lines: seq<string>)
    ensures lines == [] <==> text == []
    decreases |text|
  {
    if text == [] then []
    else
      var i := IndexOf(text, '\n');
      if i == |text| then [text]
      else [text[..i + 1]] + Lines(text[i + 1..])
  }

  /** A line of a file: not empty, and no newline before its last character. */
  predicate IsLine(line: string) {
    line != [] && '\n' !in line[..|line| - 1]
  }

  /** The lines put back together are the file's text. */
  lemma {:induction false} LinesConcat(text: string)
    ensures Concat(Lines(text)) == text
    decreases |text|
  {
    if text != [] {
      var i := IndexOf(text, '\n');
      if i < |text| {
        LinesConcat(text[i + 1..]);
        var rest := Lines(text[i + 1..]);
        assert ([text[..i + 1]] + rest)[1..] == rest;
        assert text == text[..i + 1] + text[i + 1..];
      }
    }
  }

  /** Every element is a line, and every one but the last ends with its newline. */
  predicate Shaped(lines: seq<string>) {
    forall i :: 0 <= i < |lines| ==>
      IsLine(lines[i]) && (i < |lines| - 1 ==> lines[i][|lines[i]| - 1] == '\n')
  }

  /** What a file yields is a run of lines in that shape. */
  lemma {:induction false} LinesShape(text: string)
    ensures Shaped(Lines(text))
    decreases |text|
  {
    if text != [] {
      var i := IndexOf(text, '\n');
      IndexOfFirst(text, '\n');
      if i == |text| {
        assert text[..|text| - 1] == text[..i][..|text| - 1];
      } else {
        LinesFront(text);
        LinesShape(text[i + 1..]);
        var first := text[..i + 1];
        assert first[..|first| - 1] == text[..i];
        ShapeCons(first, Lines(text[i + 1..]));
      }
    }
  }

  /** A terminated line in front of well-shaped lines keeps them well shaped. */
  lemma {:induction false} ShapeCons(first: string, rest: seq<string>)
    requires IsLine(first) && first[|first| - 1] == '\n' && Shaped(rest)
    ensures Shaped([first] + rest)
  {
    var lines := [first] + rest;
    forall j | 0 <= j < |lines| ensures IsLine(lines[j]) && lines[j] == if j == 0 then first else rest[j - 1] {
    }
  }

  /** Where `c` first occurs in `x + y`: inside `x` if it occurs there, otherwise inside `y`. */
  lemma {:induction false} IndexOfConcat(x: string, y: string, c: char)
    ensures IndexOf(x + y, c) == if c in x then IndexOf(x, c) else |x| + IndexOf(y, c)
  {
    if x == [] {
      assert x + y == y;
    } else {
      assert (x + y)[0] == x[0];
      assert (x + y)[1..] == x[1..] + y;
      IndexOfConcat(x[1..], y, c);
      assert c in x <==> x[0] == c || c in x[1..];
    }
  }

  /** A text with a newline yields its first line, then the lines after it. */
  lemma {:induction false} LinesFront(text: string)
    requires IndexOf(text, '\n') < |text|
    ensures var i := IndexOf(text, '\n');
      Lines(text) == [text[..i + 1]] + Lines(text[i + 1..])
  {
  }

  /** The first `c` is no later than any `c`. */
  lemma {:induction false} IndexOfFound(s: string, c: char, j: nat)
    requires j < |s| && s[j] == c
    ensures IndexOf(s, c) <= j
    decreases j
  {
    if s[0] != c {
      IndexOfFound(s[1..], c, j - 1);
    }
  }

  /** The first line of a well-terminated text is also the first line of anything appended to it. */
  lemma {:induction false} LinesAppendFront(text: string, more: string)
    requires WellTerminated(text) && text != []
    ensures var i := IndexOf(text, '\n');
      i < |text| && WellTerminated(text[i + 1..])
      && Lines(text + more) == [text[..i + 1]] + Lines(text[i + 1..] + more)
  {
    var s := text + more;
    var i := IndexOf(text, '\n');
    IndexOfFound(text, '\n', |text| - 1);
    assert '\n' in text by {
      assert text[|text| - 1] == '\n';
    }
    IndexOfConcat(text, more, '\n');
    assert IndexOf(s, '\n') == i;
    var tail := text[i + 1..];
    assert WellTerminated(tail) by {
      if tail != [] {
        assert tail[|tail| - 1] == text[|text| - 1];
      }
    }
    LinesFront(s);
    assert Lines(s) == [s[..i + 1]] + Lines(s[i + 1..]);
    CutConcat(text, more, i + 1);
  }

  /** Cutting `x + y` inside `x`. */
  lemma {:induction false} CutConcat(x: string, y: string, k: nat)
    requires k <= |x|
    ensures (x + y)[..k] == x[..k] && (x + y)[k..] == x[k..] + y
  {
  }

  /** Appending to a well-terminated file adds lines after the old ones and changes none of them. */
  lemma {:induction false} LinesAppend(text: string, more: string)
    requires WellTerminated(text)
    ensures Lines(text + more) == Lines(text) + Lines(more)
    decreases |text|
  {
    if text == [] {
      assert text + more == more;
    } else {
      var i := IndexOf(text, '\n');
      LinesAppendFront(text, more);
      var tail := text[i + 1..];
      var first := text[..i + 1];
      calc {
        Lines(text + more);
        [first] + Lines(tail + more);
        { LinesAppend(tail, more); }
        [first] + (Lines(tail) + Lines(more));
        { ConsAssoc(first, Lines(tail), Lines(more)); }
        ([first] + Lines(tail)) + Lines(more);
        { LinesFront(text); }
        Lines(text) + Lines(more);
      }
    }
  }

  /** Regrouping a line in front of two runs of lines, proved apart from the unfolding of `Lines`. */
  lemma ConsAssoc(x: string, ys: seq<string>, zs: seq<string>)
    ensures [x] + (ys + zs) == ([x] + ys) + zs
  {
  }

  /** A line without an inner newline, written with its newline, is read back as one line. */
  lemma {:induction false} OneLine(line: string)
    requires '\n' !in line
    ensures Lines(line + "\n") == [line + "\n"]
  {
    var s := line + "\n";
    IndexOfConcat(line, "\n", '\n');
    assert s[..|line| + 1] == s;
    assert s[|line| + 1..] == [];
  }
}
