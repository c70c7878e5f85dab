/** The Brutalism converter's `markdown_to_html`: `#`, `##` and `###`
    headings become styled `h1`–`h3` lines, and then a line-by-line machine
    with the state (list open?, which kind?) wraps `- ` items in a bulleted
    list, `1. ` items in a numbered one, and every other non-blank line in a
    paragraph. */
module Brutal {
  import opened Text

  // ---------------------------------------------------------------------
  // Headings

  const H1Open: string := "<h1 class=\"brutal-title\">"
  const H2Open: string := "<h2 class=\"brutal-subtitle\">"
  const H3Open: string := "<h3 class=\"brutal-heading\">"

  /** One heading substitution on one line: `^{marker} (.+)$` becomes the
      heading element around what follows the marker and its space. */
  function HeadingRule(marker: string, open: string, close: string, line: string): string {
    if StartsWith(line, marker + " ") && |line| > |marker| + 1 then
      open + line[|marker| + 1..] + close
    else line
  }

  /** The three heading substitutions, in the order the converter runs them,
      on one line (with `re.MULTILINE` each works line by line, and `.`
      never crosses a newline). */
  function HeadingLine(line: string): string {
    var l1 := HeadingRule("#", OpenTag(1), CloseTag(1), line);
    var l2 := HeadingRule("##", OpenTag(2), CloseTag(2), l1);
    HeadingRule("###", OpenTag(3), CloseTag(3), l2)
  }

  /** The heading level a line asks for: 1 to 3 for `#`, `##`, `###` followed
      by a space and some text, 0 otherwise. */
  function Level(line: string): (n: nat)
    ensures n <= 3
  {
    if StartsWith(line, "# ") && |line| > 2 then 1
    else if StartsWith(line, "## ") && |line| > 3 then 2
    else if StartsWith(line, "### ") && |line| > 4 then 3
    else 0
  }

  function OpenTag(level: nat): string
    requires 1 <= level <= 3
  {
    if level == 1 then H1Open else if level == 2 then H2Open else H3Open
  }

  function CloseTag(level: nat): string
    requires 1 <= level <= 3
  {
    if level == 1 then "</h1>" else if level == 2 then "</h2>" else "</h3>"
  }

  /** The heading element of a level. */
  function Heading(level: nat, text: string): string
    requires 1 <= level <= 3
  {
    OpenTag(level) + text + CloseTag(level)
  }

  /** Running the three rules in turn is the same as picking the line's
      level: a heading element never starts with `#`, so no later rule fires
      on an earlier one's output, and `## x` is not an `h1` because its
      second character is not a space. */
  lemma HeadingByLevel(line: string)
    ensures Level(line) == 0 ==> HeadingLine(line) == line
    ensures Level(line) > 0 ==> HeadingLine(line) == Heading(Level(line), line[Level(line) + 1..])
  {
    var n := Level(line);
    if n == 1 {
      H1Fires(line);
    } else if n == 2 {
      H2Fires(line);
    } else if n == 3 {
      H3Fires(line);
    } else {
      NoRuleFires(line);
    }
  }

  /** A heading element starts with `<`, which no rule's marker matches. */
  lemma RuleSkipsElement(marker: string, open: string, close: string, e: string)
    requires |marker| > 0 && marker[0] == '#' && |e| > 0 && e[0] == '<'
    ensures HeadingRule(marker, open, close, e) == e
  {
    var p := marker + " ";
    assert p[0] == '#';
    assert !StartsWith(e, p) by {
      if |p| <= |e| {
        assert e[..|p|][0] == e[0];
      }
    }
  }

  lemma H1Fires(line: string)
    requires Level(line) == 1
    ensures HeadingLine(line) == Heading(1, line[2..])
  {
    var e := H1Open + line[2..] + "</h1>";
    assert ("#" + " ") == "# ";
    assert HeadingRule("#", H1Open, "</h1>", line) == e;
    assert e[0] == '<';
    RuleSkipsElement("##", H2Open, "</h2>", e);
    RuleSkipsElement("###", H3Open, "</h3>", e);
  }

  lemma H2Fires(line: string)
    requires Level(line) == 2
    ensures HeadingLine(line) == Heading(2, line[3..])
  {
    var e := H2Open + line[3..] + "</h2>";
    assert line[1] == '#';
    assert !StartsWith(line, "#" + " ") by {
      assert ("#" + " ")[1] == ' ';
    }
    assert HeadingRule("#", H1Open, "</h1>", line) == line;
    assert ("##" + " ") == "## ";
    assert HeadingRule("##", H2Open, "</h2>", line) == e;
    assert e[0] == '<';
    RuleSkipsElement("###", H3Open, "</h3>", e);
  }

  lemma H3Fires(line: string)
    requires Level(line) == 3
    ensures HeadingLine(line) == Heading(3, line[4..])
  {
    assert line[1] == '#' && line[2] == '#';
    assert !StartsWith(line, "#" + " ") by {
      assert ("#" + " ")[1] == ' ';
    }
    assert !StartsWith(line, "##" + " ") by {
      assert ("##" + " ")[2] == ' ';
    }
    assert ("###" + " ") == "### ";
  }

  lemma NoRuleFires(line: string)
    requires Level(line) == 0
    ensures HeadingLine(line) == line
  {
    assert "#" + " " == "# " && "##" + " " == "## " && "###" + " " == "### ";
  }

  /** The three `re.sub` calls on the whole text: each line is rewritten on
      its own. */
  function Headings(text: string): string {
    var ls := Split(text, '\n');
    Join(seq(|ls|, i requires 0 <= i < |ls| => HeadingLine(ls[i])), '\n')
  }

  /** The heading pass rewrites each line on its own and keeps the line
      structure: splitting its result gives the rewritten lines. */
  lemma HeadingsLines(text: string)
    ensures var ls := Split(text, '\n');
      Split(Headings(text), '\n') == seq(|ls|, i requires 0 <= i < |ls| => HeadingLine(ls[i]))
  {
    var ls := Split(text, '\n');
    var hs := seq(|ls|, i requires 0 <= i < |ls| => HeadingLine(ls[i]));
    forall i | 0 <= i < |hs|
      ensures '\n' !in hs[i]
    {
      HeadingKeepsLine(ls[i]);
    }
    SplitJoin(hs, '\n');
  }

  lemma HeadingKeepsLine(line: string)
    requires '\n' !in line
    ensures '\n' !in HeadingLine(line)
  {
    HeadingByLevel(line);
    var n := Level(line);
    if n > 0 {
      var t := line[n + 1..];
      assert forall c :: c in t ==> c in line;
      TagsOneLine(n);
      assert Heading(n, t) == OpenTag(n) + t + CloseTag(n);
    }
  }

  lemma TagsOneLine(level: nat)
    requires 1 <= level <= 3
    ensures '\n' !in OpenTag(level) && '\n' !in CloseTag(level)
  {
    if level == 1 {
      assert '\n' !in H1Open;
    } else if level == 2 {
      assert '\n' !in H2Open;
    } else {
      assert '\n' !in H3Open;
    }
  }

  // ---------------------------------------------------------------------
  // Line kinds

  datatype Kind = Bullet | Numbered

  /** The length of the run of digits `s` starts with. */
  function DigitRun(s: string): (n: nat)
    ensures n <= |s|
    ensures forall i :: 0 <= i < n ==> IsDigit(s[i])
    ensures n == |s| || !IsDigit(s[n])
    decreases |s|
  {
    if |s| == 0 || !IsDigit(s[0]) then 0 else 1 + DigitRun(s[1..])
  }

  /** `line` starts with the `d` digits of a `^\d+\. ` match. */
  predicate NumberAt(line: string, d: int) {
    0 < d <= |line| - 2 && AllDigits(line[..d]) && line[d..d + 2] == ". "
  }

  /** The length of the `^\d+\. ` match a line starts with, or 0. */
  function NumberPrefix(line: string): (n: nat)
    ensures n <= |line|
    ensures n > 0 ==> n >= 3 && NumberAt(line, n - 2)
    ensures forall d :: NumberAt(line, d) ==> n == d + 2
  {
    var d := DigitRun(line);
    assert forall i :: 0 <= i < d ==> line[..d][i] == line[i];
    DigitRunUnique(line);
    if d > 0 && StartsWith(line[d..], ". ") then
      assert line[d..][..2] == line[d..d + 2];
      d + 2
    else 0
  }

  /** A digit run followed by `. ` is the whole run the line starts with. */
  lemma DigitRunUnique(line: string)
    ensures forall d :: NumberAt(line, d) ==> DigitRun(line) == d && StartsWith(line[d..], ". ")
  {
    forall d | NumberAt(line, d)
      ensures DigitRun(line) == d && StartsWith(line[d..], ". ")
    {
      DigitRunAt(line, d);
    }
  }

  lemma DigitRunAt(line: string, d: int)
    requires NumberAt(line, d)
    ensures DigitRun(line) == d && StartsWith(line[d..], ". ")
  {
    var k := DigitRun(line);
    assert line[d] == line[d..d + 2][0] == '.';
    assert k <= d;
    assert line[d..][..2] == line[d..d + 2];
  }

  /** `line.startswith('1. ')` is a case of the numbered pattern. */
  lemma OneIsNumbered(line: string)
    requires StartsWith(line, "1. ")
    ensures NumberPrefix(line) == 3
  {
    assert line[0] == '1' && line[1] == '.';
    assert DigitRun(line[1..]) == 0;
    assert line[1..][..2] == ". ";
  }

  /** A numbered item's number is stripped off whole, whatever its width. */
  lemma NumberStripped(d: string, text: string)
    requires |d| > 0 && AllDigits(d)
    ensures var line := d + ". " + text;
      NumberPrefix(line) == |d| + 2 && line[NumberPrefix(line)..] == text
  {
    var line := d + ". " + text;
    DigitRunOf(d, ". " + text);
    assert line == d + (". " + text);
    assert line[|d|..] == ". " + text;
    assert line[|d|..][..2] == ". ";
    assert line[|d| + 2..] == text;
  }

  lemma {:induction false} DigitRunOf(d: string, rest: string)
    requires AllDigits(d) && (|rest| == 0 || !IsDigit(rest[0]))
    ensures DigitRun(d + rest) == |d|
    decreases |d|
  {
    if |d| > 0 {
      assert (d + rest)[1..] == d[1..] + rest;
      assert AllDigits(d[1..]) by {
        forall i | 0 <= i < |d| - 1
          ensures IsDigit(d[1..][i])
        {
          assert d[1..][i] == d[i + 1];
        }
      }
      DigitRunOf(d[1..], rest);
      assert (d + rest)[0] == d[0];
    } else {
      assert d + rest == rest;
    }
  }

  /** What the converter takes a stripped line for. */
  datatype LineKind = BulletLine(text: string) | NumberLine(text: string) | TextLine(text: string) | EmptyLine

  function Classify(line: string): (k: LineKind)
    ensures k.TextLine? ==> k.text != ""
  {
    if StartsWith(line, "- ") then BulletLine(line[2..])
    else if StartsWith(line, "1. ") || NumberPrefix(line) > 0 then NumberLine(line[NumberPrefix(line)..])
    else if line != "" then TextLine(line)
    else EmptyLine
  }

  predicate IsListLine(line: string) {
    Classify(Strip(line)).BulletLine? || Classify(Strip(line)).NumberLine?
  }

  /** A line the heading pass rewrote reaches the line machine as a
      paragraph, whole: the element starts with `<` and ends with `>`, so
      stripping leaves it alone and it is neither kind of item. */
  lemma HeadingParagraph(line: string)
    requires Level(line) > 0
    ensures Classify(Strip(HeadingLine(line))) == TextLine(HeadingLine(line))
  {
    HeadingByLevel(line);
    HeadingBrackets(Level(line), line[Level(line) + 1..]);
    ElementParagraph(HeadingLine(line));
  }

  lemma HeadingBrackets(n: nat, text: string)
    requires 1 <= n <= 3
    ensures var h := Heading(n, text); |h| > 0 && h[0] == '<' && h[|h| - 1] == '>'
  {
    Parts(OpenTag(n), text, CloseTag(n));
  }

  /** Text that starts with `<` and ends with `>` is a paragraph line. */
  lemma ElementParagraph(h: string)
    requires |h| > 0 && h[0] == '<' && h[|h| - 1] == '>'
    ensures Classify(Strip(h)) == TextLine(h)
  {
    StripOfTrimmed(h);
    assert DigitRun(h) == 0;
    assert !StartsWith(h, "- ") && !StartsWith(h, "1. ") by {
      if |h| >= 2 {
        assert h[..2][0] == '<';
      }
      if |h| >= 3 {
        assert h[..3][0] == '<';
      }
    }
  }

  // ---------------------------------------------------------------------
  // The line machine

  /** One output line: a list's opening or closing tag, an item, a
      paragraph, or an empty line. */
  datatype Out = Open(kind: Kind) | Close(kind: Kind) | Item(kind: Kind, text: string) | Para(text: string) | Blank

  function Show(o: Out): string {
    match o
    case Open(Bullet) => "<ul class=\"brutal-list\">"
    case Open(Numbered) => "<ol class=\"brutal-list brutal-numbered\">"
    case Close(Bullet) => "</ul>"
    case Close(Numbered) => "</ol>"
    case Item(_, t) => "<li class=\"brutal-list-item\">" + t + "</li>"
    case Para(t) => "<p class=\"brutal-text\">" + t + "</p>"
    case Blank => ""
  }

  /** `in_list` / `list_type` and `result_lines`. */
  datatype Machine = Machine(open: Option<Kind>, out: seq<Out>)

  /** A list item of kind `k`: opens the list if none is open, closes the
      other kind's list first if that one is open. */
  function Enter(m: Machine, k: Kind, text: string): (r: Machine)
    ensures r.open == Some(k)
    ensures |r.out| > |m.out| && r.out[..|m.out|] == m.out && r.out[|r.out| - 1] == Item(k, text)
  {
    var tail :=
      if m.open == None then [Open(k), Item(k, text)]
      else if m.open == Some(k) then [Item(k, text)]
      else [Close(m.open.value), Open(k), Item(k, text)];
    var out := m.out + tail;
    assert out[..|m.out|] == m.out;
    Machine(Some(k), out)
  }

  /** A line that is not an item: the open list, if any, is closed, and
      `rest` follows. */
  function Leave(m: Machine, rest: seq<Out>): (r: Machine)
    ensures r.open == None
    ensures |r.out| >= |m.out| && r.out[..|m.out|] == m.out
  {
    var closed := if m.open.Some? then m.out + [Close(m.open.value)] else m.out;
    assert closed[..|m.out|] == m.out;
    assert (closed + rest)[..|m.out|] == m.out;
    Machine(None, closed + rest)
  }

  /** The loop body for one line. */
  function Step(m: Machine, raw: string): (r: Machine)
    ensures |r.out| > |m.out| && r.out[..|m.out|] == m.out
  {
    Advance(m, Classify(Strip(raw)))
  }

  /** The loop body once the stripped line is classified. */
  function Advance(m: Machine, kind: LineKind): (r: Machine)
    ensures |r.out| > |m.out| && r.out[..|m.out|] == m.out
  {
    match kind
    case BulletLine(t) => Enter(m, Bullet, t)
    case NumberLine(t) => Enter(m, Numbered, t)
    case TextLine(t) => Leave(m, [Para(t)])
    case EmptyLine => Leave(m, if m.open.Some? then [] else [Blank])
  }

  /** The `for line in lines` loop, as a left fold. */
  function Run(lines: seq<string>): Machine
    decreases |lines|
  {
    if |lines| == 0 then Machine(None, [])
    else Step(Run(lines[..|lines| - 1]), lines[|lines| - 1])
  }

  /** The loop and the final close of a list still open. */
  function Render(lines: seq<string>): seq<Out> {
    var m := Run(lines);
    if m.open.Some? then m.out + [Close(m.open.value)] else m.out
  }

  /** `markdown_to_html`. The bold, fenced-code and inline-code
      substitutions that run between the headings and the line machine are
      the parameter `inline`. */
  function MarkdownToHtml(text: string, inline: string -> string): string {
    var outs := Render(Split(inline(Headings(text)), '\n'));
    Join(seq(|outs|, i requires 0 <= i < |outs| => Show(outs[i])), '\n')
  }

  // ---------------------------------------------------------------------
  // Nesting

  /** Where a reading of the output stands: outside any list, just after a
      list's opening tag, or after an item of an open list. */
  datatype Phase = Outside | Opened(kind: Kind) | Inside(kind: Kind)

  /** The one move an output line allows from a phase, or None. */
  function Next(p: Phase, o: Out): Option<Phase> {
    match o
    case Open(k) => if p == Outside then Some(Opened(k)) else None
    case Item(k, _) => if p == Opened(k) || p == Inside(k) then Some(Inside(k)) else None
    case Close(k) => if p == Inside(k) then Some(Outside) else None
    case Para(_) => if p == Outside then Some(Outside) else None
    case Blank => if p == Outside then Some(Outside) else None
  }

  /** The phase after reading the whole output, or None at the first line
      out of place. */
  function Walk(out: seq<Out>): Option<Phase>
    decreases |out|
  {
    if |out| == 0 then Some(Outside)
    else match Walk(out[..|out| - 1])
      case None => None
      case Some(p) => Next(p, out[|out| - 1])
  }

  /** Lists never nest, every list holds at least one item, items sit only
      in a list of their own kind, each list is closed by the tag of its own
      kind, paragraphs and empty lines sit outside lists, and no list is
      left open. */
  predicate WellNested(out: seq<Out>) {
    Walk(out) == Some(Outside)
  }

  lemma WalkSnoc(a: seq<Out>, x: Out)
    ensures Walk(a + [x]) == if Walk(a).None? then None else Next(Walk(a).value, x)
  {
    assert (a + [x])[..|a|] == a;
  }

  function PhaseOf(open: Option<Kind>): Phase {
    if open.Some? then Inside(open.value) else Outside
  }

  lemma StepWalk(m: Machine, raw: string)
    requires Walk(m.out) == Some(PhaseOf(m.open))
    ensures Walk(Step(m, raw).out) == Some(PhaseOf(Step(m, raw).open))
  {
    AdvanceWalk(m, Classify(Strip(raw)));
  }

  lemma AdvanceWalk(m: Machine, kind: LineKind)
    requires Walk(m.out) == Some(PhaseOf(m.open))
    ensures Walk(Advance(m, kind).out) == Some(PhaseOf(Advance(m, kind).open))
  {
    match kind
    case BulletLine(t) => EnterWalk(m, Bullet, t);
    case NumberLine(t) => EnterWalk(m, Numbered, t);
    case TextLine(t) => LeaveWalk(m, [Para(t)]);
    case EmptyLine => LeaveWalk(m, if m.open.Some? then [] else [Blank]);
  }

  /** A line that is not an item closes the open list, if any, and then
      adds what it adds outside lists. */
  lemma LeaveWalk(m: Machine, rest: seq<Out>)
    requires Walk(m.out) == Some(PhaseOf(m.open))
    requires |rest| <= 1 && forall i :: 0 <= i < |rest| ==> rest[i].Para? || rest[i].Blank?
    ensures var closed := if m.open.Some? then m.out + [Close(m.open.value)] else m.out;
      Walk(closed + rest) == Some(Outside)
  {
    var o := m.out;
    var closed := if m.open.Some? then o + [Close(m.open.value)] else o;
    if m.open.Some? {
      WalkSnoc(o, Close(m.open.value));
    }
    if |rest| == 1 {
      WalkSnoc(closed, rest[0]);
      assert rest == [rest[0]];
    } else {
      assert closed + rest == closed;
    }
  }

  lemma EnterWalk(m: Machine, k: Kind, t: string)
    requires Walk(m.out) == Some(PhaseOf(m.open))
    ensures Walk(Enter(m, k, t).out) == Some(Inside(k))
  {
    var o := m.out;
    if m.open == None {
      WalkSnoc(o, Open(k));
      WalkTwo(o, Open(k), Item(k, t));
    } else if m.open == Some(k) {
      WalkSnoc(o, Item(k, t));
    } else {
      var c := Close(m.open.value);
      WalkSnoc(o, c);
      WalkTwo(o, c, Open(k));
      WalkThree(o, c, Open(k), Item(k, t));
    }
  }

  lemma WalkTwo(o: seq<Out>, x: Out, y: Out)
    ensures Walk(o + [x, y]) == if Walk(o + [x]).None? then None else Next(Walk(o + [x]).value, y)
  {
    WalkSnoc(o + [x], y);
    assert o + [x, y] == o + [x] + [y];
  }

  lemma WalkThree(o: seq<Out>, x: Out, y: Out, z: Out)
    ensures Walk(o + [x, y, z]) == if Walk(o + [x, y]).None? then None else Next(Walk(o + [x, y]).value, z)
  {
    WalkSnoc(o + [x, y], z);
    assert o + [x, y, z] == o + [x, y] + [z];
  }

  /** The machine's state is the phase its output leaves a reader in. */
  lemma {:induction false} RunWalk(lines: seq<string>)
    ensures Walk(Run(lines).out) == Some(PhaseOf(Run(lines).open))
    decreases |lines|
  {
    if |lines| > 0 {
      RunWalk(lines[..|lines| - 1]);
      StepWalk(Run(lines[..|lines| - 1]), lines[|lines| - 1]);
    }
  }

  /** The rendered lines are well nested, whatever the input. */
  lemma RenderNested(lines: seq<string>)
    ensures WellNested(Render(lines))
  {
    RunWalk(lines);
    var m := Run(lines);
    if m.open.Some? {
      WalkSnoc(m.out, Close(m.open.value));
    }
  }

  // ---------------------------------------------------------------------
  // Content

  /** The output without its list tags: items, paragraphs and empty lines. */
  function Content(out: seq<Out>): seq<Out>
    decreases |out|
  {
    if |out| == 0 then []
    else
      var last := out[|out| - 1];
      Content(out[..|out| - 1]) + (if last.Open? || last.Close? then [] else [last])
  }

  lemma {:induction false} ContentAppend(a: seq<Out>, b: seq<Out>)
    ensures Content(a + b) == Content(a) + Content(b)
    decreases |b|
  {
    if |b| == 0 {
      assert a + b == a;
    } else {
      var b' := b[..|b| - 1];
      assert (a + b)[..|a + b| - 1] == a + b';
      assert (a + b)[|a + b| - 1] == b[|b| - 1];
      ContentAppend(a, b');
    }
  }

  /** What one input line contributes besides list tags, given whether a
      list is open when it is read: its item or paragraph; an empty line
      outside a list, and nothing for a blank line that ends a list. */
  function LineContent(inList: bool, raw: string): seq<Out> {
    KindContent(inList, Classify(Strip(raw)))
  }

  function KindContent(inList: bool, kind: LineKind): seq<Out> {
    match kind
    case BulletLine(t) => [Item(Bullet, t)]
    case NumberLine(t) => [Item(Numbered, t)]
    case TextLine(t) => [Para(t)]
    case EmptyLine => if inList then [] else [Blank]
  }

  /** The content line by line, independent of the machine: a list is open
      when a line is read exactly when the line before it was a list item. */
  function Expected(lines: seq<string>): seq<Out>
    decreases |lines|
  {
    if |lines| == 0 then []
    else
      var n := |lines| - 1;
      Expected(lines[..n]) + LineContent(n > 0 && IsListLine(lines[n - 1]), lines[n])
  }

  /** The list open after a line is the kind of that line's item, if any. */
  function KindAfter(raw: string): Option<Kind> {
    ListOf(Classify(Strip(raw)))
  }

  function ListOf(kind: LineKind): Option<Kind> {
    match kind
    case BulletLine(_) => Some(Bullet)
    case NumberLine(_) => Some(Numbered)
    case _ => None
  }

  lemma StepContent(m: Machine, raw: string)
    ensures Step(m, raw).open == KindAfter(raw)
    ensures Content(Step(m, raw).out) == Content(m.out) + LineContent(m.open.Some?, raw)
  {
    AdvanceContent(m, Classify(Strip(raw)));
  }

  lemma AdvanceContent(m: Machine, kind: LineKind)
    ensures Advance(m, kind).open == ListOf(kind)
    ensures Content(Advance(m, kind).out) == Content(m.out) + KindContent(m.open.Some?, kind)
  {
    var o := m.out;
    var r := Advance(m, kind);
    var tail := r.out[|o|..];
    assert r.out == o + tail;
    ContentAppend(o, tail);
    match kind
    case BulletLine(t) => TailContent(m, Bullet, t, tail);
    case NumberLine(t) => TailContent(m, Numbered, t, tail);
    case TextLine(t) =>
      if m.open.Some? {
        ContentPair(Close(m.open.value), Para(t));
      } else {
        ContentOne(Para(t));
      }
    case EmptyLine =>
      if m.open.Some? {
        ContentOne(Close(m.open.value));
      } else {
        ContentOne(Blank);
      }
  }

  lemma TailContent(m: Machine, k: Kind, t: string, tail: seq<Out>)
    requires Enter(m, k, t).out == m.out + tail
    ensures Content(tail) == [Item(k, t)]
  {
    var o := m.out;
    if m.open == None {
      assert tail == [Open(k), Item(k, t)];
      ContentPair(Open(k), Item(k, t));
    } else if m.open == Some(k) {
      assert tail == [Item(k, t)];
      ContentOne(Item(k, t));
    } else {
      var c := Close(m.open.value);
      assert tail == [c, Open(k), Item(k, t)];
      assert tail[..2] == [c, Open(k)];
      ContentPair(c, Open(k));
    }
  }

  lemma ContentOne(x: Out)
    ensures Content([x]) == if x.Open? || x.Close? then [] else [x]
  {
    assert [x][..0] == [];
  }

  lemma ContentPair(x: Out, y: Out)
    ensures Content([x, y]) == Content([x]) + (if y.Open? || y.Close? then [] else [y])
  {
    assert [x, y][..1] == [x];
  }

  /** After the loop, a list is open exactly when the last line was an item,
      and the content is the line-by-line reference. */
  predicate RunMatches(lines: seq<string>) {
    && Run(lines).open == (if |lines| == 0 then None else KindAfter(lines[|lines| - 1]))
    && Content(Run(lines).out) == Expected(lines)
  }

  lemma {:induction false} RunContent(lines: seq<string>)
    ensures RunMatches(lines)
    decreases |lines|
  {
    if |lines| > 0 {
      RunContent(lines[..|lines| - 1]);
      RunContentStep(lines);
    }
  }

  lemma RunContentStep(lines: seq<string>)
    requires |lines| > 0 && RunMatches(lines[..|lines| - 1])
    ensures RunMatches(lines)
  {
    var n := |lines| - 1;
    var prev := Run(lines[..n]);
    StepContent(prev, lines[n]);
    var inList := n > 0 && IsListLine(lines[n - 1]);
    assert prev.open.Some? == inList by {
      if n > 0 {
        assert lines[..n][n - 1] == lines[n - 1];
        KindAfterList(lines[n - 1]);
      }
    }
    ExpectedSnoc(lines);
  }

  lemma ExpectedSnoc(lines: seq<string>)
    requires |lines| > 0
    ensures var n := |lines| - 1;
      Expected(lines) == Expected(lines[..n]) + LineContent(n > 0 && IsListLine(lines[n - 1]), lines[n])
  {
  }

  lemma KindAfterList(raw: string)
    ensures KindAfter(raw).Some? <==> IsListLine(raw)
  {
  }

  /** Whatever the machine's state, a list is open after a line exactly
      when that line is an item of either kind. */
  lemma ListOpenAfter(m: Machine, raw: string)
    ensures Step(m, raw).open.Some? <==> IsListLine(raw)
  {
    StepContent(m, raw);
    KindAfterList(raw);
  }

  /** Apart from list tags, the rendered lines are exactly the line-by-line
      content: each item with its marker removed, each other non-blank
      line as a paragraph of its stripped text, each blank line as an empty
      line unless it ends a list. */
  lemma RenderContent(lines: seq<string>)
    ensures Content(Render(lines)) == Expected(lines)
  {
    RunContent(lines);
    var m := Run(lines);
    if m.open.Some? {
      ContentAppend(m.out, [Close(m.open.value)]);
      ContentOne(Close(m.open.value));
    }
  }
}
