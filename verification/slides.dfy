/** The slide splitter `parse_marp_markdown`. The three converters carry
    identical copies of it, so it is modelled once: a left fold of a two-state
    machine (front matter / slides) over the document's lines, with the
    Python locals (`yaml_section`, `current_slide`, `slide_number`, `slides`)
    as an explicit state record.

    Its partner is an independent description of the result: the lines after
    the front matter, cut into separator-delimited sections, keeping the
    sections whose stripped text is non-empty, numbered from 1. */
module Slides {
  import opened Text

  datatype Slide = Slide(number: nat, content: string, isLead: bool)

  /** A line the splitter treats as a slide separator: `line.strip() == '---'`. */
  predicate IsSeparator(line: string) {
    Strip(line) == "---"
  }

  /** What a buffer of lines contributes: `'\n'.join(buffer).strip()`. */
  function SectionText(buffer: seq<string>): string {
    Strip(Join(buffer, '\n'))
  }

  datatype ParseState = ParseState(
    inFrontMatter: bool,      // yaml_section
    buffer: seq<string>,      // current_slide
    number: nat,              // slide_number
    slides: seq<Slide>)       // slides

  function Initial(): ParseState {
    ParseState(true, [], 1, [])
  }

  /** Every slide is numbered by its position from 1, is the lead slide
      exactly when it is number 1, and has non-empty, already-stripped
      content. */
  predicate WellFormedSlides(slides: seq<Slide>) {
    forall i :: 0 <= i < |slides| ==>
      && slides[i].number == i + 1
      && (slides[i].isLead <==> slides[i].number == 1)
      && slides[i].content != ""
      && IsTrimmed(slides[i].content)
  }

  /** Saves the buffer as the next slide when its stripped text is
      non-empty; the counter moves only when a slide is appended. */
  function Flush(st: ParseState): (r: ParseState)
    ensures r.inFrontMatter == st.inFrontMatter && r.buffer == st.buffer
    ensures SectionText(st.buffer) == "" ==> r == st
    ensures SectionText(st.buffer) != "" ==>
      r.slides == st.slides + [Slide(st.number, SectionText(st.buffer), st.number == 1)]
      && r.number == st.number + 1
  {
    if |st.buffer| > 0 && SectionText(st.buffer) != "" then
      var content := SectionText(st.buffer);
      st.(slides := st.slides + [Slide(st.number, content, st.number == 1)],
          number := st.number + 1)
    else
      st
  }

  /** One iteration of the `for line in lines` loop. */
  function Step(st: ParseState, line: string): ParseState {
    if st.inFrontMatter then
      if IsSeparator(line) && |st.buffer| > 0 then
        st.(inFrontMatter := false, buffer := [])
      else
        st.(buffer := st.buffer + [line])
    else if IsSeparator(line) then
      Flush(st).(buffer := [])
    else
      st.(buffer := st.buffer + [line])
  }

  function Run(st: ParseState, lines: seq<string>): ParseState
    decreases |lines|
  {
    if |lines| == 0 then st else Run(Step(st, lines[0]), lines[1..])
  }

  /** parse_marp_markdown on a document already split into lines. */
  function ParseLines(lines: seq<string>): seq<Slide> {
    Flush(Run(Initial(), lines)).slides
  }

  /** parse_marp_markdown(content). */
  function Parse(content: string): (slides: seq<Slide>)
    ensures WellFormedSlides(slides)
    ensures slides == Numbering(Contents(BodySections(Split(content, '\n'))))
  {
    var lines := Split(content, '\n');
    ParseMatchesSections(lines);
    ContentsValid(BodySections(lines));
    NumberingWellFormed(Contents(BodySections(lines)));
    ParseLines(lines)
  }

  // ---------------------------------------------------------------------
  // Reference description of the result

  /** Index of the first separator line. */
  function FirstSeparator(lines: seq<string>): (r: Option<nat>)
    ensures r.Some? ==> r.value < |lines|
    decreases |lines|
  {
    if |lines| == 0 then None
    else if IsSeparator(lines[0]) then Some(0)
    else match FirstSeparator(lines[1..])
      case None => None
      case Some(k) => Some(k + 1)
  }

  /** FirstSeparator finds the first separator when there is one ... */
  lemma {:induction false} FirstSeparatorAt(lines: seq<string>, j: nat)
    requires j < |lines| && IsSeparator(lines[j])
    requires forall k :: 0 <= k < j ==> !IsSeparator(lines[k])
    ensures FirstSeparator(lines) == Some(j)
    decreases j
  {
    if j > 0 {
      var t := lines[1..];
      assert forall k :: 0 <= k < j - 1 ==> t[k] == lines[k + 1];
      FirstSeparatorAt(t, j - 1);
    }
  }

  /** ... and reports none when no line is a separator. */
  lemma {:induction false} FirstSeparatorNone(lines: seq<string>)
    requires forall k :: 0 <= k < |lines| ==> !IsSeparator(lines[k])
    ensures FirstSeparator(lines) == None
    decreases |lines|
  {
    if |lines| > 0 {
      var t := lines[1..];
      assert forall k :: 0 <= k < |t| ==> t[k] == lines[k + 1];
      FirstSeparatorNone(t);
    }
  }

  /** Where the front matter ends: the first separator after the first
      line. A separator on the very first line belongs to the front matter. */
  function FrontMatterEnd(lines: seq<string>): (r: Option<nat>)
    ensures r.Some? ==> 1 <= r.value < |lines|
  {
    if |lines| == 0 then None
    else match FirstSeparator(lines[1..])
      case None => None
      case Some(k) => Some(k + 1)
  }

  /** The separator-delimited sections of a run of lines; the separators
      themselves belong to no section. */
  function Sections(lines: seq<string>): (r: seq<seq<string>>)
    ensures |r| >= 1
    decreases |lines|
  {
    match FirstSeparator(lines)
    case None => [lines]
    case Some(k) => [lines[..k]] + Sections(lines[k + 1..])
  }

  /** The sections that make up slides: everything after the front matter,
      or, when the front matter never closes, the whole document as one
      section. */
  function BodySections(lines: seq<string>): seq<seq<string>> {
    match FrontMatterEnd(lines)
    case None => [lines]
    case Some(j) => Sections(lines[j + 1..])
  }

  /** The stripped texts of the non-empty sections, in order. */
  function Contents(sections: seq<seq<string>>): (r: seq<string>)
    ensures forall i :: 0 <= i < |r| ==> r[i] != ""
    decreases |sections|
  {
    if |sections| == 0 then []
    else
      var c := SectionText(sections[0]);
      (if c != "" then [c] else []) + Contents(sections[1..])
  }

  /** Slides numbered from 1 in order, the first being the lead slide. */
  function Numbering(contents: seq<string>): seq<Slide> {
    seq(|contents|, i requires 0 <= i < |contents| => Slide(i + 1, contents[i], i == 0))
  }

  // ---------------------------------------------------------------------
  // Lemmas relating the fold to the reference description

  lemma {:induction false} ContentsAppend(a: seq<seq<string>>, b: seq<seq<string>>)
    ensures Contents(a + b) == Contents(a) + Contents(b)
    decreases |a|
  {
    if |a| > 0 {
      var c := SectionText(a[0]);
      var h := if c != "" then [c] else [];
      assert (a + b)[0] == a[0];
      assert (a + b)[1..] == a[1..] + b;
      assert Contents(a + b) == h + Contents(a[1..] + b);
      ContentsAppend(a[1..], b);
      assert Contents(a) == h + Contents(a[1..]);
    } else {
      assert a + b == b;
    }
  }

  lemma NumberingAppend(cs: seq<string>, c: string)
    ensures Numbering(cs + [c]) == Numbering(cs) + [Slide(|cs| + 1, c, |cs| == 0)]
  {
  }

  lemma SectionsOfSeparator(l: string, rest: seq<string>)
    requires IsSeparator(l)
    ensures Sections([l] + rest) == [[]] + Sections(rest)
  {
    assert ([l] + rest)[1..] == rest;
  }

  lemma SectionsOfLine(l: string, rest: seq<string>)
    requires !IsSeparator(l)
    ensures Sections([l] + rest) == [[l] + Sections(rest)[0]] + Sections(rest)[1..]
  {
    var lines := [l] + rest;
    assert lines[0] == l;
    assert lines[1..] == rest;
    match FirstSeparator(rest)
    case None =>
      assert FirstSeparator(lines) == None;
      assert Sections(lines) == [lines];
      assert Sections(rest) == [rest];
    case Some(k) =>
      assert Sections(lines) == [lines[..k + 1]] + Sections(lines[k + 2..]) by {
        assert FirstSeparator(lines) == Some(k + 1);
      }
      assert Sections(rest) == [rest[..k]] + Sections(rest[k + 1..]);
      assert lines[..k + 1] == [l] + rest[..k];
      assert lines[k + 2..] == rest[k + 1..];
  }

  /** The sections of `lines` with `buf` glued onto the front of the first. */
  function Continue(buf: seq<string>, lines: seq<string>): (r: seq<seq<string>>)
    ensures |r| == |Sections(lines)|
  {
    var secs := Sections(lines);
    [buf + secs[0]] + secs[1..]
  }

  /** The state after the slides of `cs` with `buf` buffered. */
  function BodyState(buf: seq<string>, cs: seq<string>): ParseState {
    ParseState(false, buf, |cs| + 1, Numbering(cs))
  }

  lemma FlushNumbering(buf: seq<string>, cs: seq<string>)
    ensures Flush(BodyState(buf, cs)) == BodyState(buf, cs + Contents([buf]))
  {
    var c := SectionText(buf);
    assert Contents([buf]) == (if c != "" then [c] else []) + Contents([]);
    if c != "" {
      NumberingAppend(cs, c);
    } else {
      assert cs + Contents([buf]) == cs;
    }
  }

  /** A separator in the slides phase saves the buffer and starts afresh. */
  lemma RunSeparator(buf: seq<string>, cs: seq<string>, l: string, rest: seq<string>)
    requires IsSeparator(l)
    ensures Run(BodyState(buf, cs), [l] + rest) == Run(BodyState([], cs + Contents([buf])), rest)
  {
    var lines := [l] + rest;
    assert lines[0] == l && lines[1..] == rest;
    FlushNumbering(buf, cs);
    assert Step(BodyState(buf, cs), l) == BodyState([], cs + Contents([buf]));
  }

  lemma ContinueSeparator(buf: seq<string>, l: string, rest: seq<string>)
    requires IsSeparator(l)
    ensures Contents(Continue(buf, [l] + rest)) == Contents([buf]) + Contents(Continue([], rest))
  {
    SectionsOfSeparator(l, rest);
    var secs' := Sections(rest);
    assert Sections([l] + rest)[1..] == secs';
    assert buf + Sections([l] + rest)[0] == buf;
    assert Continue(buf, [l] + rest) == [buf] + secs';
    ContentsAppend([buf], secs');
    assert [] + secs'[0] == secs'[0];
    assert Continue([], rest) == secs';
  }

  /** What the slides phase yields from the state holding the slides of
      `cs` and the buffer `buf`: the non-empty sections of the remaining
      lines, the first of which continues the buffer. */
  predicate BodyResult(buf: seq<string>, cs: seq<string>, lines: seq<string>) {
    Flush(Run(BodyState(buf, cs), lines)).slides == Numbering(cs + Contents(Continue(buf, lines)))
  }

  lemma BodyEnd(buf: seq<string>, cs: seq<string>)
    ensures BodyResult(buf, cs, [])
  {
    assert Sections([]) == [[]];
    assert buf + [] == buf;
    assert Continue(buf, []) == [buf];
    FlushNumbering(buf, cs);
  }

  lemma BodySeparator(buf: seq<string>, cs: seq<string>, l: string, rest: seq<string>)
    requires IsSeparator(l)
    requires BodyResult([], cs + Contents([buf]), rest)
    ensures BodyResult(buf, cs, [l] + rest)
  {
    RunSeparator(buf, cs, l, rest);
    ContinueSeparator(buf, l, rest);
  }

  lemma BodyLine(buf: seq<string>, cs: seq<string>, l: string, rest: seq<string>)
    requires !IsSeparator(l)
    requires BodyResult(buf + [l], cs, rest)
    ensures BodyResult(buf, cs, [l] + rest)
  {
    var lines := [l] + rest;
    assert Run(BodyState(buf, cs), lines) == Run(BodyState(buf + [l], cs), rest) by {
      assert lines[0] == l && lines[1..] == rest;
      assert Step(BodyState(buf, cs), l) == BodyState(buf + [l], cs);
    }
    assert Continue(buf, lines) == Continue(buf + [l], rest) by {
      var secs' := Sections(rest);
      SectionsOfLine(l, rest);
      assert buf + ([l] + secs'[0]) == (buf + [l]) + secs'[0];
    }
  }

  /** Slides-state phase, by induction over the remaining lines. */
  lemma {:induction false} BodyPhase(buf: seq<string>, cs: seq<string>, lines: seq<string>)
    ensures BodyResult(buf, cs, lines)
    decreases |lines|
  {
    if |lines| == 0 {
      BodyEnd(buf, cs);
    } else {
      var l, rest := lines[0], lines[1..];
      assert lines == [l] + rest;
      if IsSeparator(l) {
        BodyPhase([], cs + Contents([buf]), rest);
        BodySeparator(buf, cs, l, rest);
      } else {
        BodyPhase(buf + [l], cs, rest);
        BodyLine(buf, cs, l, rest);
      }
    }
  }

  /** Every content is non-empty and stripped. */
  predicate ValidContents(cs: seq<string>) {
    forall i :: 0 <= i < |cs| ==> cs[i] != "" && IsTrimmed(cs[i])
  }

  lemma ContentsValid(secs: seq<seq<string>>)
    ensures ValidContents(Contents(secs))
  {
  }

  lemma NumberingWellFormed(cs: seq<string>)
    requires ValidContents(cs)
    ensures WellFormedSlides(Numbering(cs))
  {
  }

  /** Front-matter phase: once a line is buffered, lines are buffered until
      the first separator, which ends the front matter and drops the buffer. */
  lemma {:induction false} FrontPhase(buf: seq<string>, lines: seq<string>)
    requires |buf| > 0
    ensures FirstSeparator(lines).None? ==>
      Run(ParseState(true, buf, 1, []), lines) == ParseState(true, buf + lines, 1, [])
    ensures FirstSeparator(lines).Some? ==>
      Run(ParseState(true, buf, 1, []), lines)
        == Run(ParseState(false, [], 1, []), lines[FirstSeparator(lines).value + 1..])
    decreases |lines|
  {
    if |lines| == 0 {
      assert buf + lines == buf;
    } else if !IsSeparator(lines[0]) {
      FrontPhase(buf + [lines[0]], lines[1..]);
      assert buf + [lines[0]] + lines[1..] == buf + lines;
    }
  }

  /** The first line always goes into the buffer, whatever it is. */
  lemma FrontStart(lines: seq<string>)
    requires |lines| > 0
    ensures Run(Initial(), lines) == Run(ParseState(true, [lines[0]], 1, []), lines[1..])
  {
    assert Step(Initial(), lines[0]) == ParseState(true, [lines[0]], 1, []);
  }

  /** Without a closing separator the whole document is buffered as front
      matter and the final flush saves it. */
  lemma ParseUnclosed(lines: seq<string>)
    requires |lines| > 0 && FirstSeparator(lines[1..]).None?
    ensures ParseLines(lines) == Numbering(Contents(BodySections(lines)))
  {
    assert BodySections(lines) == [lines];
    FrontStart(lines);
    FrontPhase([lines[0]], lines[1..]);
    assert [lines[0]] + lines[1..] == lines;
    var c := SectionText(lines);
    assert Contents([lines]) == (if c != "" then [c] else []) + Contents([]);
  }

  /** After the closing separator the slides phase starts from nothing. */
  lemma ParseClosed(lines: seq<string>, k: nat)
    requires |lines| > 0 && FirstSeparator(lines[1..]) == Some(k)
    ensures ParseLines(lines) == Numbering(Contents(BodySections(lines)))
  {
    var body := lines[k + 2..];
    assert BodySections(lines) == Sections(body);
    assert Run(Initial(), lines) == Run(BodyState([], []), body) by {
      ClosedRun(lines, k);
    }
    BodyFromStart(body);
  }

  lemma ClosedRun(lines: seq<string>, k: nat)
    requires |lines| > 0 && FirstSeparator(lines[1..]) == Some(k)
    ensures Run(Initial(), lines) == Run(BodyState([], []), lines[k + 2..])
  {
    var t, body := lines[1..], lines[k + 2..];
    var front := ParseState(true, [lines[0]], 1, []);
    assert Run(Initial(), lines) == Run(front, t) by {
      FrontStart(lines);
    }
    assert Run(front, t) == Run(ParseState(false, [], 1, []), body) by {
      FrontPhase([lines[0]], t);
      assert t[k + 1..] == body;
    }
    assert ParseState(false, [], 1, []) == BodyState([], []) by {
      assert Numbering([]) == [];
    }
  }

  /** The slides phase, started afresh, numbers the non-empty sections. */
  lemma BodyFromStart(body: seq<string>)
    ensures Flush(Run(BodyState([], []), body)).slides == Numbering(Contents(Sections(body)))
  {
    BodyPhase([], [], body);
    var secs := Sections(body);
    assert [] + secs[0] == secs[0];
    assert [secs[0]] + secs[1..] == secs;
    assert Continue([], body) == secs;
    assert [] + Contents(secs) == Contents(secs);
  }

  /** The fold computes the reference description: the non-empty sections
      after the front matter, numbered from 1. */
  lemma ParseMatchesSections(lines: seq<string>)
    ensures ParseLines(lines) == Numbering(Contents(BodySections(lines)))
  {
    if |lines| == 0 {
      ParseEmpty();
    } else {
      match FirstSeparator(lines[1..])
      case None => ParseUnclosed(lines);
      case Some(k) => ParseClosed(lines, k);
    }
  }

  /** An empty document has no slides. */
  lemma ParseEmpty()
    ensures ParseLines([]) == Numbering(Contents(BodySections([])))
  {
    var empty: seq<string> := [];
    assert SectionText(empty) == "" by {
      assert Join(empty, '\n') == "";
      StripOfTrimmed("");
    }
    assert Flush(Run(Initial(), empty)) == Initial();
    assert BodySections(empty) == [empty];
    assert Contents([empty]) == [];
  }

  // ---------------------------------------------------------------------
  // Consequences

  /** One slide per non-empty section after the front matter. */
  lemma SlideCount(content: string)
    ensures |Parse(content)| == |Contents(BodySections(Split(content, '\n')))|
  {
  }

  /** Whatever precedes the first separator after the first line is
      discarded, whether or not it is metadata. */
  lemma FrontMatterDiscarded(front: seq<string>, sep: string, rest: seq<string>)
    requires |front| >= 1 && IsSeparator(sep)
    requires forall k :: 1 <= k < |front| ==> !IsSeparator(front[k])
    ensures ParseLines(front + [sep] + rest) == Numbering(Contents(Sections(rest)))
  {
    var lines := front + [sep] + rest;
    var t := lines[1..];
    assert t[|front| - 1] == sep;
    assert forall k :: 0 <= k < |front| - 1 ==> t[k] == front[k + 1];
    FirstSeparatorAt(t, |front| - 1);
    assert lines[|front| + 1..] == rest;
    ParseMatchesSections(lines);
  }

  /** When no separator follows the first line, the front matter never
      closes and the final flush turns the whole document, a leading
      separator included, into slide 1. */
  lemma UnclosedFrontMatter(lines: seq<string>)
    requires forall k :: 1 <= k < |lines| ==> !IsSeparator(lines[k])
    ensures SectionText(lines) == "" ==> ParseLines(lines) == []
    ensures SectionText(lines) != "" ==> ParseLines(lines) == [Slide(1, SectionText(lines), true)]
  {
    if |lines| > 0 {
      var t := lines[1..];
      assert forall k :: 0 <= k < |t| ==> t[k] == lines[k + 1];
      FirstSeparatorNone(t);
    }
    ParseMatchesSections(lines);
    assert BodySections(lines) == [lines];
    var c := SectionText(lines);
    assert Contents([lines]) == (if c != "" then [c] else []) + Contents([]);
  }

  /** Every slide's content is already stripped: stripping it again changes
      nothing. */
  lemma ContentStripped(content: string)
    ensures forall i :: 0 <= i < |Parse(content)| ==>
      Strip(Parse(content)[i].content) == Parse(content)[i].content
  {
    var slides := Parse(content);
    forall i | 0 <= i < |slides|
      ensures Strip(slides[i].content) == slides[i].content
    {
      StripOfTrimmed(slides[i].content);
    }
  }

  /** A small deck, given as its lines: YAML front matter, then two slides
      and a trailing separator. The front matter is dropped and the
      trailing separator makes no slide. */
  lemma ExampleDeck()
    ensures ParseLines(["---", "title: x", "---", "# Hello", "---", "Body text", "---"])
      == [Slide(1, "# Hello", true), Slide(2, "Body text", false)]
  {
    StripOfTrimmed("---");
    StripOfTrimmed("title: x");
    StripOfTrimmed("# Hello");
    StripOfTrimmed("Body text");
    TwoSlideDeck("---", "title: x", "# Hello", "Body text");
  }

  /** The shape of that deck, for any lines of the same kinds. */
  lemma TwoSlideDeck(sep: string, meta: string, a: string, b: string)
    requires IsSeparator(sep) && !IsSeparator(meta) && !IsSeparator(a) && !IsSeparator(b)
    requires a != "" && IsTrimmed(a) && b != "" && IsTrimmed(b)
    ensures ParseLines([sep, meta, sep, a, sep, b, sep]) == [Slide(1, a, true), Slide(2, b, false)]
  {
    var rest := [a, sep, b, sep];
    assert [sep, meta, sep, a, sep, b, sep] == [sep, meta] + [sep] + rest;
    FrontMatterDiscarded([sep, meta], sep, rest);
    TwoSections(sep, a, b);
    TwoContents(a, b);
    NumberingTwo(a, b);
  }

  lemma NumberingTwo(a: string, b: string)
    ensures Numbering([a, b]) == [Slide(1, a, true), Slide(2, b, false)]
  {
    var n := Numbering([a, b]);
    assert n[0] == Slide(1, a, true) && n[1] == Slide(2, b, false);
  }

  lemma TwoSections(sep: string, a: string, b: string)
    requires IsSeparator(sep) && !IsSeparator(a) && !IsSeparator(b)
    ensures Sections([a, sep, b, sep]) == [[a], [b], []]
  {
    LastSection(sep, b);
    SectionsOfSeparator(sep, [b, sep]);
    assert [sep] + [b, sep] == [sep, b, sep];
    SectionsOfLine(a, [sep, b, sep]);
    assert [a] + [sep, b, sep] == [a, sep, b, sep];
  }

  lemma LastSection(sep: string, b: string)
    requires IsSeparator(sep) && !IsSeparator(b)
    ensures Sections([b, sep]) == [[b], []]
  {
    var empty: seq<string> := [];
    FirstSeparatorNone(empty);
    assert Sections(empty) == [empty];
    SectionsOfSeparator(sep, empty);
    assert [sep] + empty == [sep];
    SectionsOfLine(b, [sep]);
    assert [b] + [sep] == [b, sep];
  }

  lemma TwoContents(a: string, b: string)
    requires a != "" && IsTrimmed(a) && b != "" && IsTrimmed(b)
    ensures Contents([[a], [b], []]) == [a, b]
  {
    StripOfTrimmed(a);
    StripOfTrimmed(b);
    var empty: seq<string> := [];
    assert SectionText([a]) == a;
    assert SectionText([b]) == b;
    assert SectionText(empty) == "" by {
      StripOfTrimmed("");
    }
    assert Contents([empty]) == [];
    assert Contents([[b], empty]) == [b] + Contents([empty]);
  }
}
