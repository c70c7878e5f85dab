/** `convert_urls_to_links`: after rendering, plain URLs outside existing
    `<a>…</a>` elements become links that open in a new tab. The document is
    taken already cut at the anchors the non-greedy `<a[^>]*>.*?</a>` scan
    finds, and each gap already cut at the URLs the URL pattern matches. */
module Linkify {
  import opened Text

  // ---------------------------------------------------------------------
  // One URL

  /** A URL the earlier YouTube passes are responsible for. */
  predicate IsVideoUrl(u: string) {
    Contains(u, "youtube.com") || Contains(u, "youtu.be")
  }

  /** The target of the link: a `www.` address gets an `http://` scheme. */
  function FullUrl(u: string): (r: string)
    ensures StartsWith(u, "www.") ==> r == "http://" + u
    ensures !StartsWith(u, "www.") ==> r == u
    ensures |r| >= |u| && r[|r| - |u|..] == u
  {
    if StartsWith(u, "www.") then "http://" + u else u
  }

  /** Where a network location ends: at the first `/`, `?` or `#`. */
  predicate EndsLocation(c: char) {
    c == '/' || c == '?' || c == '#'
  }

  /** The longest prefix of `s` free of location terminators. */
  function LocationPart(s: string): (r: string)
    ensures StartsWith(s, r)
    ensures forall i :: 0 <= i < |r| ==> !EndsLocation(r[i])
    ensures |r| == |s| || EndsLocation(s[|r|])
    decreases |s|
  {
    if |s| == 0 || EndsLocation(s[0]) then "" else [s[0]] + LocationPart(s[1..])
  }

  /** `urlparse(full).netloc` for the `http://` and `https://` addresses
      the pattern produces; any other text has no network location. */
  function Netloc(full: string): (r: string)
    ensures StartsWith(full, "http://") ==> r == LocationPart(full[|"http://"|..])
    ensures StartsWith(full, "https://") ==> r == LocationPart(full[|"https://"|..])
    ensures !StartsWith(full, "http://") && !StartsWith(full, "https://") ==> r == ""
  {
    if StartsWith(full, "http://") then
      assert !StartsWith(full, "https://") by {
        assert full[..7][4] == full[4] == ':';
      }
      LocationPart(full[7..])
    else if StartsWith(full, "https://") then LocationPart(full[8..])
    else ""
  }

  /** The link text: the network location, or the URL as matched when it has none. */
  function Display(u: string): (r: string)
    ensures Netloc(FullUrl(u)) != "" ==> r == Netloc(FullUrl(u))
    ensures Netloc(FullUrl(u)) == "" ==> r == u
    ensures r != ""  <== u != ""
  {
    var n := Netloc(FullUrl(u));
    if n != "" then n else u
  }

  const AnchorStart: string := "<a href=\""
  const AnchorMiddle: string := "\" target=\"_blank\" rel=\"noopener noreferrer\">"
  const AnchorEnd: string := "</a>"

  /** The anchor element made for a link. */
  function AnchorHtml(href: string, text: string): (r: string)
    ensures |r| == |AnchorStart| + |href| + |AnchorMiddle| + |text| + |AnchorEnd|
  {
    AnchorStart + href + AnchorMiddle + text + AnchorEnd
  }

  /** `replace_url`: YouTube URLs stay as they are; any other URL becomes an
      anchor to its full address, labelled with its display text. */
  function ReplaceUrl(u: string): (r: string)
    ensures IsVideoUrl(u) <==> r == u
    ensures !IsVideoUrl(u) ==> |r| > |u|
  {
    if IsVideoUrl(u) then u else AnchorHtml(FullUrl(u), Display(u))
  }

  // ---------------------------------------------------------------------
  // Reading an anchor back

  /** The index of the first `c` in `s`, or |s| when there is none. */
  function IndexOf(s: string, c: char): (k: nat)
    ensures k <= |s|
    ensures forall i :: 0 <= i < k ==> s[i] != c
    ensures k < |s| ==> s[k] == c
    decreases |s|
  {
    if |s| == 0 then 0 else if s[0] == c then 0 else 1 + IndexOf(s[1..], c)
  }

  /** The `(href, text)` of an anchor written the way `replace_url` writes
      one, or None. */
  function ParseAnchor(s: string): (r: Option<(string, string)>)
    ensures r.Some? ==> '"' !in r.value.0
  {
    if StartsWith(s, AnchorStart) then ParseTarget(s[|AnchorStart|..]) else None
  }

  /** The target runs to the first double quote. */
  function ParseTarget(rest: string): (r: Option<(string, string)>)
    ensures r.Some? ==> '"' !in r.value.0
  {
    var k := IndexOf(rest, '"');
    assert forall i :: 0 <= i < k ==> rest[..k][i] == rest[i];
    ParseText(rest[..k], rest[k..])
  }

  /** After the target come the fixed attributes, the text and `</a>`. */
  function ParseText(href: string, tail: string): Option<(string, string)> {
    if StartsWith(tail, AnchorMiddle) && |tail| >= |AnchorMiddle| + |AnchorEnd|
      && tail[|tail| - |AnchorEnd|..] == AnchorEnd
    then Some((href, tail[|AnchorMiddle|..|tail| - |AnchorEnd|]))
    else None
  }

  lemma IndexOfAfter(x: string, y: string, c: char)
    requires c !in x && |y| > 0 && y[0] == c
    ensures IndexOf(x + y, c) == |x|
  {
    assert (x + y)[|x|] == c;
    assert forall i :: 0 <= i < |x| ==> (x + y)[i] == x[i];
  }

  /** An anchor reads back as the target and text it was made from, as long
      as the target has no double quote to end the attribute early. */
  lemma AnchorRoundTrip(href: string, text: string)
    requires '"' !in href
    ensures ParseAnchor(AnchorHtml(href, text)) == Some((href, text))
  {
    var tail := AnchorMiddle + text + AnchorEnd;
    AnchorShape(href, text);
    ReadStart(href + tail);
    ReadTarget(href, tail);
    ReadText(href, text);
  }

  lemma AnchorShape(href: string, text: string)
    ensures var tail := AnchorMiddle + text + AnchorEnd;
      AnchorHtml(href, text) == AnchorStart + (href + tail) && tail[0] == '"'
  {
    var tail := AnchorMiddle + text + AnchorEnd;
    assert AnchorMiddle[0] == '"';
    assert tail[0] == AnchorMiddle[0];
    assert AnchorStart + href + AnchorMiddle + text + AnchorEnd == AnchorStart + (href + tail);
  }

  lemma ReadStart(rest: string)
    ensures ParseAnchor(AnchorStart + rest) == ParseTarget(rest)
  {
    Parts(AnchorStart, rest, "");
  }

  lemma ReadTarget(href: string, tail: string)
    requires '"' !in href && |tail| > 0 && tail[0] == '"'
    ensures ParseTarget(href + tail) == ParseText(href, tail)
  {
    IndexOfAfter(href, tail, '"');
    Parts(href, tail, "");
  }

  lemma ReadText(href: string, text: string)
    ensures ParseText(href, AnchorMiddle + text + AnchorEnd) == Some((href, text))
  {
    Parts(AnchorMiddle, text, AnchorEnd);
  }

  /** A converted URL is an anchor whose target ends with the URL itself and
      whose text is the display text. */
  lemma LinkTargetsUrl(u: string)
    requires !IsVideoUrl(u) && '"' !in u
    ensures ParseAnchor(ReplaceUrl(u)) == Some((FullUrl(u), Display(u)))
    ensures var h := FullUrl(u); h[|h| - |u|..] == u
  {
    var h := FullUrl(u);
    if StartsWith(u, "www.") {
      assert '"' !in "http://";
      assert forall i :: 0 <= i < |h| ==> h[i] != '"' by {
        forall i | 0 <= i < |h|
          ensures h[i] != '"'
        {
          if i >= 7 {
            assert h[i] == u[i - 7];
          }
        }
      }
    }
    AnchorRoundTrip(h, Display(u));
  }

  /** A URL with a double quote ends the `href` attribute early, so the
      anchor no longer reads back as its target and text. */
  lemma LinkTargetsQuote(u: string)
    requires !IsVideoUrl(u) && '"' in u
    ensures ParseAnchor(ReplaceUrl(u)) != Some((FullUrl(u), Display(u)))
  {
    var h := FullUrl(u);
    var k :| 0 <= k < |u| && u[k] == '"';
    assert h[|h| - |u|..][k] == '"';
    assert '"' in h;
  }

  /** The URL pattern lets a double quote through, since `[^\s<>]*` does
      not exclude it: an address of the pattern's one-label shape whose path
      holds a `"` but no `y` (so no YouTube domain) is a match whose anchor
      does not read back. */
  lemma QuotedUrl(scheme: string, part: string, tld: string, path: string)
    requires OneLabelForm(scheme, part, tld, path) && '"' in path
    requires 'y' !in scheme && 'y' !in part && 'y' !in tld && 'y' !in path
    ensures var u := scheme + part + "." + tld + path;
      IsUrlMatch(u) && !IsVideoUrl(u) && ParseAnchor(ReplaceUrl(u)) != Some((FullUrl(u), Display(u)))
  {
    var u := scheme + part + "." + tld + path;
    OneLabelMatches(scheme, part, tld, path);
    assert u == (scheme + part + "." + tld) + path;
    assert !IsVideoUrl(u) by {
      assert 'y' !in u by {
        assert 'y' !in "." && 'y' !in scheme + part + "." + tld;
      }
      NotContainsFirst(u, "youtube.com");
      NotContainsFirst(u, "youtu.be");
    }
    assert '"' in u;
    LinkTargetsQuote(u);
  }

  /** For instance `https://x.com/a"b`. */
  lemma QuotedExample()
    ensures var u := "https://" + "x" + "." + "com" + "/a\"b";
      IsUrlMatch(u) && !IsVideoUrl(u) && ParseAnchor(ReplaceUrl(u)) != Some((FullUrl(u), Display(u)))
  {
    var path := "/a\"b";
    assert path[2] == '"';
    assert OneLabelForm("https://", "x", "com", path);
    QuotedUrl("https://", "x", "com", path);
  }

  // ---------------------------------------------------------------------
  // What the URL pattern matches

  /** How many characters of `u` the scheme alternative covers: `https://`,
      `http://`, or none for a `www.` address. */
  function SchemeLength(u: string): (n: nat)
    ensures n <= |u|
  {
    if StartsWith(u, "https://") then 8 else if StartsWith(u, "http://") then 7 else 0
  }

  predicate IsDomainChar(c: char) {
    ('a' <= c <= 'z') || ('A' <= c <= 'Z') || ('0' <= c <= '9') || c == '-' || c == '.'
  }

  /** What every match of the URL pattern satisfies: it begins with
      `http://`, `https://` or `www.`, a domain character follows the
      scheme, and it holds no whitespace, `<` or `>`. */
  predicate IsUrlMatch(u: string) {
    && (StartsWith(u, "http://") || StartsWith(u, "https://") || StartsWith(u, "www."))
    && SchemeLength(u) < |u| && IsDomainChar(u[SchemeLength(u)])
    && forall i :: 0 <= i < |u| ==> !IsSpace(u[i]) && u[i] != '<' && u[i] != '>'
  }

  predicate IsLabelChar(c: char) {
    ('a' <= c <= 'z') || ('A' <= c <= 'Z') || ('0' <= c <= '9') || c == '-'
  }

  predicate IsLetter(c: char) {
    ('a' <= c <= 'z') || ('A' <= c <= 'Z')
  }

  /** The pieces of a match of the URL pattern with a single domain label:
      the scheme alternative, a `[a-zA-Z0-9-]+` domain part, and after its `.` a
      `[a-zA-Z]{2,}` top-level domain, then nothing or a `/` and a run free
      of whitespace, `<` and `>`. Taken alone as the text, such an address
      is exactly the match `re.sub` finds: the greedy label and domain runs
      stop at the `.` and the `/`, and the path run takes the rest. */
  predicate OneLabelForm(scheme: string, part: string, tld: string, path: string) {
    && (scheme == "http://" || scheme == "https://" || scheme == "www.")
    && |part| > 0 && (forall i :: 0 <= i < |part| ==> IsLabelChar(part[i]))
    && |tld| >= 2 && (forall i :: 0 <= i < |tld| ==> IsLetter(tld[i]))
    && (path == "" || path[0] == '/')
    && Plain(path)
  }

  /** Every such address meets the conditions `IsUrlMatch` collects. */
  lemma OneLabelMatches(scheme: string, part: string, tld: string, path: string)
    requires OneLabelForm(scheme, part, tld, path)
    ensures IsUrlMatch(scheme + part + "." + tld + path)
  {
    var rest := part + "." + tld + path;
    assert rest[0] == part[0];
    RestPlain(part, tld, path);
    UrlOfParts(scheme, rest);
    assert scheme + rest == scheme + part + "." + tld + path;
  }

  lemma UrlOfParts(scheme: string, rest: string)
    requires scheme == "http://" || scheme == "https://" || scheme == "www."
    requires |rest| > 0 && IsDomainChar(rest[0]) && Plain(rest)
    ensures IsUrlMatch(scheme + rest)
  {
    SchemeFirst(scheme, rest);
    assert Plain(scheme);
    PlainJoin(scheme, rest);
  }

  /** What follows a scheme alternative starts right after it, or, for
      `www.`, at the `w`. */
  lemma SchemeFirst(scheme: string, rest: string)
    requires scheme == "http://" || scheme == "https://" || scheme == "www."
    requires |rest| > 0 && IsDomainChar(rest[0])
    ensures var u := scheme + rest;
      && (StartsWith(u, "http://") || StartsWith(u, "https://") || StartsWith(u, "www."))
      && SchemeLength(u) < |u| && IsDomainChar(u[SchemeLength(u)])
  {
    var u := scheme + rest;
    PrefixOf(scheme, rest);
    assert u[|scheme|] == rest[0];
    if scheme == "www." {
      assert u[0] == 'w';
      assert !StartsWith(u, "https://") && !StartsWith(u, "http://") by {
        assert u[..|"http"|] != "http";
      }
    } else if scheme == "http://" {
      assert !StartsWith(u, "https://") by {
        assert u[..7][4] == u[4] == ':';
      }
    }
  }

  /** No whitespace, `<` or `>`. */
  predicate Plain(s: string) {
    forall i :: 0 <= i < |s| ==> !IsSpace(s[i]) && s[i] != '<' && s[i] != '>'
  }

  lemma PlainJoin(a: string, b: string)
    requires Plain(a) && Plain(b)
    ensures Plain(a + b)
  {
    assert forall i :: |a| <= i < |a + b| ==> (a + b)[i] == b[i - |a|];
  }

  lemma RestPlain(part: string, tld: string, path: string)
    requires forall i :: 0 <= i < |part| ==> IsLabelChar(part[i])
    requires forall i :: 0 <= i < |tld| ==> IsLetter(tld[i])
    requires Plain(path)
    ensures Plain(part + "." + tld + path)
  {
    PlainJoin(part, ".");
    PlainJoin(part + ".", tld);
    PlainJoin(part + "." + tld, path);
  }

  /** The host a match names: what follows its scheme, up to the path. */
  function UrlHost(u: string): string {
    LocationPart(u[SchemeLength(u)..])
  }

  /** A matched URL is always labelled with its host, which is never empty:
      the fallback to the URL itself never fires. */
  lemma DisplayIsHost(u: string)
    requires IsUrlMatch(u)
    ensures Display(u) == UrlHost(u) && UrlHost(u) != ""
  {
    var h := FullUrl(u);
    if StartsWith(u, "www.") {
      assert h == "http://" + u;
      PrefixOf("http://", u);
      assert u[..4] == "www.";
      assert u[0] == 'w';
      assert !StartsWith(u, "https://") && !StartsWith(u, "http://") by {
        assert u[..|"http"|] != "http";
      }
      assert SchemeLength(u) == 0;
    } else if StartsWith(u, "https://") {
      assert h == u;
      assert u[..8] == "https://";
      assert u[4] == 's';
      assert !StartsWith(h, "http://") by {
        assert h[4] != "http://"[4];
      }
    }
    var rest := u[SchemeLength(u)..];
    assert rest[0] == u[SchemeLength(u)];
    assert !EndsLocation(rest[0]);
  }

  // ---------------------------------------------------------------------
  // The document

  /** A stretch of a gap: text the URL pattern does not match, or a match. */
  datatype GapPiece = Plain(text: string) | Found(url: string)

  /** The document cut at its `<a>…</a>` elements: an element, copied
      verbatim, or the gap before, between or after elements. */
  datatype Span = Anchor(html: string) | Gap(pieces: seq<GapPiece>)

  /** What `re.sub` puts in place of one stretch. */
  function PieceOut(p: GapPiece): string {
    match p
    case Plain(t) => t
    case Found(u) => ReplaceUrl(u)
  }

  /** The stretch as it stands in the input. */
  function PieceIn(p: GapPiece): string {
    match p
    case Plain(t) => t
    case Found(u) => u
  }

  /** `re.sub(url_pattern, replace_url, gap)`. */
  function ConvertGap(ps: seq<GapPiece>): string
    decreases |ps|
  {
    if |ps| == 0 then "" else PieceOut(ps[0]) + ConvertGap(ps[1..])
  }

  /** The gap as it stands in the input. */
  function GapText(ps: seq<GapPiece>): string
    decreases |ps|
  {
    if |ps| == 0 then "" else PieceIn(ps[0]) + GapText(ps[1..])
  }

  /** What the conversion puts in place of one span. */
  function SpanOut(s: Span): string {
    match s
    case Anchor(h) => h
    case Gap(ps) => ConvertGap(ps)
  }

  function SpanIn(s: Span): string {
    match s
    case Anchor(h) => h
    case Gap(ps) => GapText(ps)
  }

  /** `convert_urls_to_links`. */
  function Linkify(spans: seq<Span>): string
    decreases |spans|
  {
    if |spans| == 0 then "" else SpanOut(spans[0]) + Linkify(spans[1..])
  }

  /** The input document the spans cut up. */
  function Input(spans: seq<Span>): string
    decreases |spans|
  {
    if |spans| == 0 then "" else SpanIn(spans[0]) + Input(spans[1..])
  }

  /** Every match in the document is a YouTube URL. */
  predicate OnlyVideos(spans: seq<Span>) {
    forall i, j :: 0 <= i < |spans| && spans[i].Gap? && 0 <= j < |spans[i].pieces| && spans[i].pieces[j].Found?
      ==> IsVideoUrl(spans[i].pieces[j].url)
  }

  /** The conversion works span by span. */
  lemma {:induction false} LinkifyAppend(a: seq<Span>, b: seq<Span>)
    ensures Linkify(a + b) == Linkify(a) + Linkify(b)
    decreases |a|
  {
    if |a| == 0 {
      assert a + b == b;
    } else {
      assert (a + b)[0] == a[0];
      assert (a + b)[1..] == a[1..] + b;
      LinkifyAppend(a[1..], b);
    }
  }

  /** Each existing anchor element appears in the output exactly as it was,
      right after the output of the spans before it. */
  lemma AnchorsVerbatim(spans: seq<Span>, i: nat)
    requires i < |spans| && spans[i].Anchor?
    ensures OccursAt(Linkify(spans), |Linkify(spans[..i])|, spans[i].html)
  {
    assert spans == spans[..i] + spans[i..];
    LinkifyAppend(spans[..i], spans[i..]);
    assert spans[i..][0] == spans[i];
    var x, m := Linkify(spans[..i]), spans[i].html;
    var whole := x + (m + Linkify(spans[i + 1..]));
    assert spans[i..][1..] == spans[i + 1..];
    assert Linkify(spans) == whole;
    assert whole[|x|..|x| + |m|] == m;
  }

  /** A stretch never shrinks, and stays as it was exactly when it is plain
      text or a YouTube URL. */
  lemma PieceGrows(p: GapPiece)
    ensures |PieceOut(p)| >= |PieceIn(p)|
    ensures PieceOut(p) == PieceIn(p) <==> (p.Found? ==> IsVideoUrl(p.url))
  {
  }

  /** Two growing parts give an unchanged whole only when both are unchanged. */
  lemma GrowingParts(x: string, x0: string, y: string, y0: string)
    requires |x| >= |x0| && |y| >= |y0|
    ensures x + y == x0 + y0 <==> x == x0 && y == y0
  {
    if x + y == x0 + y0 {
      assert |x| == |x0|;
      assert x == (x + y)[..|x|] == (x0 + y0)[..|x0|] == x0;
      assert y == (x + y)[|x|..] == (x0 + y0)[|x0|..] == y0;
    }
  }

  /** A gap never shrinks, and stays as it was exactly when every match in
      it is a YouTube URL. */
  lemma {:induction false} GapGrows(ps: seq<GapPiece>)
    ensures |ConvertGap(ps)| >= |GapText(ps)|
    ensures ConvertGap(ps) == GapText(ps) <==>
      forall j :: 0 <= j < |ps| && ps[j].Found? ==> IsVideoUrl(ps[j].url)
    decreases |ps|
  {
    if |ps| > 0 {
      GapGrows(ps[1..]);
      PieceGrows(ps[0]);
      GrowingParts(PieceOut(ps[0]), PieceIn(ps[0]), ConvertGap(ps[1..]), GapText(ps[1..]));
      assert forall j :: 1 <= j < |ps| ==> ps[1..][j - 1] == ps[j];
    }
  }

  /** The conversion never shrinks the document, and leaves it exactly as it
      was if and only if every URL in the gaps is a YouTube URL. */
  lemma {:induction false} LinkifyGrows(spans: seq<Span>)
    ensures |Linkify(spans)| >= |Input(spans)|
    ensures Linkify(spans) == Input(spans) <==> OnlyVideos(spans)
    decreases |spans|
  {
    if |spans| > 0 {
      LinkifyGrows(spans[1..]);
      if spans[0].Gap? {
        GapGrows(spans[0].pieces);
      }
      GrowingParts(SpanOut(spans[0]), SpanIn(spans[0]), Linkify(spans[1..]), Input(spans[1..]));
      assert forall i :: 1 <= i < |spans| ==> spans[1..][i - 1] == spans[i];
    }
  }
}
