/** `fix_youtube_embed_layout`: markdown wraps a video embed in the paragraph
    it sat in; the fixer pulls the `video-container` div out of that
    paragraph and keeps the text around it as paragraphs of their own when
    it has anything visible. The document is taken already cut at the
    matches of the non-greedy
    `<p>(.*?)<div class="video-container">(.*?)</div>(.*?)</p>` scan. */
module Layout {
  import opened Text

  // ---------------------------------------------------------------------
  // Removing inline tags

  /** The length of the whitespace run `s` starts with. */
  function SpaceRun(s: string): (n: nat)
    ensures n <= |s|
    ensures forall i :: 0 <= i < n ==> IsSpace(s[i])
    ensures n == |s| || !IsSpace(s[n])
    decreases |s|
  {
    if |s| == 0 || !IsSpace(s[0]) then 0 else 1 + SpaceRun(s[1..])
  }

  /** The length of the tag match `s` starts with, or 0 when it starts with
      none. The pattern's alternatives, tried in order: `<br`, any whitespace,
      an optional `/` and `>`; `<strong>` or `</strong>`; `<em>` or `</em>`. */
  function TagLength(s: string): (n: nat)
    ensures n <= |s|
    ensures n > 0 ==> s[0] == '<' && s[n - 1] == '>'
  {
    if StartsWith(s, "<br") then
      var j := 3 + SpaceRun(s[3..]);
      if StartsWith(s[j..], "/>") then j + 2
      else if StartsWith(s[j..], ">") then j + 1
      else 0
    else if StartsWith(s, "<strong>") then 8
    else if StartsWith(s, "</strong>") then 9
    else if StartsWith(s, "<em>") then 4
    else if StartsWith(s, "</em>") then 5
    else 0
  }

  /** The `re.sub` that deletes every tag match, scanning left to right. */
  function CleanTags(s: string): (r: string)
    ensures |r| <= |s|
    decreases |s|
  {
    if |s| == 0 then ""
    else
      var n := TagLength(s);
      if n > 0 then CleanTags(s[n..]) else [s[0]] + CleanTags(s[1..])
  }

  /** Text without a `<` holds no tag: it is kept as it is. */
  lemma {:induction false} CleanPlain(x: string, s: string)
    requires '<' !in x
    ensures CleanTags(x + s) == x + CleanTags(s)
    decreases |x|
  {
    if |x| > 0 {
      var c, x' := x[0], x[1..];
      assert x + s == [c] + (x' + s);
      assert c != '<';
      assert '<' !in x' by {
        forall i | 0 <= i < |x'|
          ensures x'[i] != '<'
        {
          assert x'[i] == x[i + 1];
        }
      }
      CleanPlain(x', s);
      CleanKeeps(c, x' + s);
      assert CleanTags(x + s) == [c] + (x' + CleanTags(s));
      assert [c] + (x' + CleanTags(s)) == ([c] + x') + CleanTags(s);
      assert [c] + x' == x;
    } else {
      assert x + s == s;
      assert x + CleanTags(s) == CleanTags(s);
    }
  }

  /** A character other than `<` never starts a tag, so it is kept. */
  lemma CleanKeeps(c: char, rest: string)
    requires c != '<'
    ensures CleanTags([c] + rest) == [c] + CleanTags(rest)
  {
    var y := [c] + rest;
    assert y[0] == c && y[1..] == rest;
  }

  /** The tags are removed wherever they stand. */
  lemma CleanAfterTag(t: string, s: string)
    requires IsInlineTag(t)
    ensures CleanTags(t + s) == CleanTags(s)
  {
    TagPrefix(t, s);
    assert (t + s)[|t|..] == s;
  }

  /** The five removable tags, with `<br>` in its plain, spaced and
      self-closing forms. */
  predicate IsInlineTag(t: string) {
    t in {"<br>", "<br/>", "<br />", "<strong>", "</strong>", "<em>", "</em>"}
  }

  lemma TagPrefix(t: string, s: string)
    requires IsInlineTag(t)
    ensures TagLength(t + s) == |t|
  {
    var x := t + s;
    assert x[..|t|] == t;
    if t == "<br>" || t == "<br/>" || t == "<br />" {
      BreakPrefix(t, s);
    } else {
      WordTagPrefix(t, s);
    }
  }

  /** The four `strong` and `em` tags are matched whole by their own
      alternative. */
  lemma WordTagPrefix(t: string, s: string)
    requires t in {"<strong>", "</strong>", "<em>", "</em>"}
    ensures TagLength(t + s) == |t|
  {
    var x := t + s;
    assert x[..|t|] == t;
    assert x[1] == t[1] != 'b';
    assert !StartsWith(x, "<br");
    if t == "</strong>" || t == "</em>" {
      assert x[1] == '/';
      assert !StartsWith(x, "<strong>");
      if t == "</em>" {
        assert x[2] == 'e';
        assert !StartsWith(x, "</strong>");
        assert !StartsWith(x, "<em>");
      }
    } else if t == "<em>" {
      assert x[1] == 'e';
      assert !StartsWith(x, "<strong>") && !StartsWith(x, "</strong>");
    }
  }

  /** The three spellings of a line break are matched whole. */
  lemma BreakPrefix(t: string, s: string)
    requires t == "<br>" || t == "<br/>" || t == "<br />"
    ensures TagLength(t + s) == |t|
  {
    var x := t + s;
    assert x[..|t|] == t;
    assert x[..3] == "<br";
    var y := x[3..];
    assert y == t[3..] + s;
    var j := 3 + SpaceRun(y);
    if t == "<br />" {
      assert y[0] == ' ' && y[1] == '/';
      assert SpaceRun(y) == 1;
      assert x[j..][..2] == "/>";
    } else {
      assert y[0] == t[3];
      assert SpaceRun(y) == 0;
      assert x[j..][..|t| - 3] == t[3..];
    }
  }

  /** `if before_text:` and then `if clean_before:` — text that is still
      non-blank once its tags are removed and it is trimmed. */
  predicate Visible(text: string) {
    var t := Strip(text);
    t != "" && Strip(CleanTags(t)) != ""
  }

  /** Tag-free text is visible exactly when it is not all whitespace. */
  lemma VisibleTagFree(text: string)
    requires '<' !in text
    ensures Visible(text) <==> !AllSpace(text)
  {
    var t := Strip(text);
    StripChars(text);
    CleanPlain(t, "");
    assert t + "" == t;
    StripIdempotent(text);
  }

  /** A piece of text that vanishes once tags are removed and it is trimmed. */
  predicate IsBlankPiece(p: string) {
    IsInlineTag(p) || AllSpace(p)
  }

  /** Removing the tags from tags and whitespace leaves only whitespace. */
  lemma {:induction false} CleanBlankPieces(ps: seq<string>)
    requires forall i :: 0 <= i < |ps| ==> IsBlankPiece(ps[i])
    ensures AllSpace(CleanTags(Concat(ps)))
    decreases |ps|
  {
    if |ps| > 0 {
      CleanBlankPieces(ps[1..]);
      var rest := CleanTags(Concat(ps[1..]));
      if IsInlineTag(ps[0]) {
        CleanAfterTag(ps[0], Concat(ps[1..]));
      } else {
        assert forall i :: 0 <= i < |ps[0]| ==> ps[0][i] != '<';
        CleanPlain(ps[0], Concat(ps[1..]));
        assert AllSpace(ps[0] + rest) by {
          forall i | 0 <= i < |ps[0] + rest|
            ensures IsSpace((ps[0] + rest)[i])
          {
            if i >= |ps[0]| {
              assert (ps[0] + rest)[i] == rest[i - |ps[0]|];
            }
          }
        }
      }
    }
  }

  /** Text that, trimmed, is nothing but the removable tags and whitespace
      (`<br />`, `<strong> </strong>`) is not visible. */
  lemma BlankPiecesInvisible(text: string, ps: seq<string>)
    requires Strip(text) == Concat(ps)
    requires forall i :: 0 <= i < |ps| ==> IsBlankPiece(ps[i])
    ensures !Visible(text)
  {
    CleanBlankPieces(ps);
  }

  // ---------------------------------------------------------------------
  // One match

  const ContainerOpen: string := "<div class=\"video-container\">"
  const ContainerClose: string := "</div>"

  function Container(video: string): string {
    ContainerOpen + video + ContainerClose
  }

  const ParaOpen: string := "<p>"
  const ParaClose: string := "</p>"
  const Break: string := "\n\n"

  function Paragraph(text: string): string {
    ParaOpen + text + ParaClose
  }

  /** The before-text as its own paragraph, or nothing. */
  function Lead(before: string): (r: string)
    ensures r == "" <==> !Visible(before)
  {
    if Visible(before) then Paragraph(Strip(before)) + Break else ""
  }

  /** The after-text as its own paragraph, or nothing. */
  function Trail(after: string): (r: string)
    ensures r == "" <==> !Visible(after)
  {
    if Visible(after) then Break + Paragraph(Strip(after)) else ""
  }

  /** `replace_embed`: the container comes out unwrapped, between the
      before- and after-texts, each kept as a paragraph of its own, with its
      tags, only when it is visible. */
  function ReplaceEmbed(before: string, video: string, after: string): (r: string)
    ensures OccursAt(r, |Lead(before)|, Container(video))
    ensures |r| == |Lead(before)| + |Container(video)| + |Trail(after)|
  {
    var r := Lead(before) + Container(video) + Trail(after);
    Parts(Lead(before), Container(video), Trail(after));
    r
  }

  /** The result opens a paragraph exactly when the before-text is visible,
      and otherwise starts with the container itself. */
  lemma ReplaceEmbedStart(before: string, video: string, after: string)
    ensures var r := ReplaceEmbed(before, video, after);
      && (StartsWith(r, ParaOpen) <==> Visible(before))
      && (!Visible(before) ==> StartsWith(r, Container(video)))
      && (Visible(before) ==> StartsWith(r, Paragraph(Strip(before)) + Break + Container(video)))
  {
    var r := ReplaceEmbed(before, video, after);
    Parts(Lead(before), Container(video), Trail(after));
    if Visible(before) {
      LeadStarts(r, Strip(before));
      PrefixOf(Lead(before) + Container(video), Trail(after));
    } else {
      ContainerStarts(r, video, Trail(after));
    }
  }

  lemma LeadStarts(r: string, text: string)
    requires StartsWith(r, Paragraph(text) + Break)
    ensures StartsWith(r, ParaOpen) && StartsWith(r, Paragraph(text))
  {
    var p := Paragraph(text);
    PrefixOf(p, Break);
    StartsWithTrans(r, p + Break, p);
    Parts(ParaOpen, text, ParaClose);
    StartsWithTrans(r, p, ParaOpen);
  }

  lemma ContainerStarts(r: string, video: string, rest: string)
    requires r == "" + Container(video) + rest
    ensures !StartsWith(r, ParaOpen) && StartsWith(r, Container(video))
  {
    var c := Container(video);
    assert r == c + rest;
    PrefixOf(c, rest);
    Parts(ContainerOpen, video, ContainerClose);
    assert r[1] == c[1] == ContainerOpen[1] != ParaOpen[1];
  }

  /** The result closes a paragraph exactly when the after-text is visible,
      and otherwise ends with the container itself. */
  lemma ReplaceEmbedEnd(before: string, video: string, after: string)
    ensures var r := ReplaceEmbed(before, video, after);
      && (EndsWith(r, ParaClose) <==> Visible(after))
      && (!Visible(after) ==> EndsWith(r, Container(video)))
      && (Visible(after) ==> EndsWith(r, Container(video) + Break + Paragraph(Strip(after))))
  {
    var r := ReplaceEmbed(before, video, after);
    var l, c, t := Lead(before), Container(video), Trail(after);
    SuffixOf(l + c, t);
    if Visible(after) {
      assert r == l + c + (Break + Paragraph(Strip(after)));
      TrailEnds(l, c, Strip(after));
    } else {
      assert r == l + c;
      SuffixOf(l, c);
      Parts(ContainerOpen, video, ContainerClose);
      assert EndsWith(r, ContainerClose) by {
        EndsWithTrans(r, c, ContainerClose);
      }
      assert r[|r| - 4] == ContainerClose[2] != ParaClose[0];
    }
  }

  lemma TrailEnds(l: string, c: string, text: string)
    ensures var p := Paragraph(text); var r := l + c + (Break + p);
      EndsWith(r, ParaClose) && EndsWith(r, c + Break + p)
  {
    var p := Paragraph(text);
    var r := l + c + (Break + p);
    assert EndsWith(r, c + Break + p) by {
      assert r == l + (c + Break + p);
      SuffixOf(l, c + Break + p);
    }
    assert EndsWith(r, p) by {
      assert r == (l + c + Break) + p;
      SuffixOf(l + c + Break, p);
    }
    Parts(ParaOpen, text, ParaClose);
    EndsWithTrans(r, p, ParaClose);
  }

  // ---------------------------------------------------------------------
  // The document

  /** The document cut at the matches of the pattern: text the pattern does
      not match, or a paragraph holding a video container. */
  datatype Span = Keep(text: string) | Embedded(before: string, video: string, after: string)

  /** What the single substitution pass puts in place of one span. */
  function SpanOut(s: Span): string {
    match s
    case Keep(t) => t
    case Embedded(b, v, a) => ReplaceEmbed(b, v, a)
  }

  /** The span as it stands in the input. */
  function SpanIn(s: Span): string {
    match s
    case Keep(t) => t
    case Embedded(b, v, a) => Paragraph(b + Container(v) + a)
  }

  /** `fix_youtube_embed_layout`: one `re.sub` pass; what a replacement
      produces is never scanned again. */
  function FixLayout(spans: seq<Span>): string
    decreases |spans|
  {
    if |spans| == 0 then "" else SpanOut(spans[0]) + FixLayout(spans[1..])
  }

  function Input(spans: seq<Span>): string
    decreases |spans|
  {
    if |spans| == 0 then "" else SpanIn(spans[0]) + Input(spans[1..])
  }

  lemma {:induction false} FixLayoutAppend(a: seq<Span>, b: seq<Span>)
    ensures FixLayout(a + b) == FixLayout(a) + FixLayout(b)
    decreases |a|
  {
    if |a| == 0 {
      assert a + b == b;
    } else {
      assert (a + b)[0] == a[0];
      assert (a + b)[1..] == a[1..] + b;
      FixLayoutAppend(a[1..], b);
    }
  }

  /** Each span's replacement stands in the output right after the output
      of the spans before it: text outside the matches verbatim, and every
      matched paragraph replaced once. */
  lemma SpanInPlace(spans: seq<Span>, i: nat)
    requires i < |spans|
    ensures OccursAt(FixLayout(spans), |FixLayout(spans[..i])|, SpanOut(spans[i]))
  {
    FixLayoutAt(spans, i);
    MiddleOccurs(FixLayout(spans[..i]), SpanOut(spans[i]), FixLayout(spans[i + 1..]));
  }

  /** The output cut at span `i`. */
  lemma FixLayoutAt(spans: seq<Span>, i: nat)
    requires i < |spans|
    ensures FixLayout(spans) == FixLayout(spans[..i]) + (SpanOut(spans[i]) + FixLayout(spans[i + 1..]))
  {
    var t := spans[i..];
    assert spans == spans[..i] + t;
    FixLayoutAppend(spans[..i], t);
    FixLayoutCons(t);
    assert t[0] == spans[i] && t[1..] == spans[i + 1..];
  }

  lemma FixLayoutCons(t: seq<Span>)
    requires |t| > 0
    ensures FixLayout(t) == SpanOut(t[0]) + FixLayout(t[1..])
  {
  }

  lemma MiddleOccurs(x: string, m: string, y: string)
    ensures OccursAt(x + (m + y), |x|, m)
  {
    assert (x + (m + y))[|x|..|x| + |m|] == m;
  }

  /** A document without a wrapped video comes out unchanged. */
  lemma {:induction false} NoEmbedUnchanged(spans: seq<Span>)
    requires forall i :: 0 <= i < |spans| ==> spans[i].Keep?
    ensures FixLayout(spans) == Input(spans)
    decreases |spans|
  {
    if |spans| > 0 {
      NoEmbedUnchanged(spans[1..]);
    }
  }
}
