/** `extract_youtube_id` and the embed markup the converter saves for each
    YouTube link. URLs are taken already parsed: the host name, the path and
    the query as the list of `(key, value)` pairs it splits into. */
module VideoLinks {
  import opened Text

  /** What `urlparse` yields that the extractor looks at. `query` lists the
      `key=value` pairs in order, blank values included; `parse_qs` drops the
      blank ones. */
  datatype Url = Url(host: Option<string>, path: string, query: seq<(string, string)>)

  predicate IsShortHost(host: Option<string>) {
    host == Some("youtu.be") || host == Some("www.youtu.be")
  }

  predicate IsLongHost(host: Option<string>) {
    host == Some("youtube.com") || host == Some("www.youtube.com")
  }

  /** `parse_qs(query).get(key, [None])[0]`: the first non-blank value. */
  function FirstValue(query: seq<(string, string)>, key: string): (r: Option<string>)
    ensures r.Some? ==> r.value != ""
    ensures r.Some? <==> exists i :: 0 <= i < |query| && query[i].0 == key && query[i].1 != ""
    ensures r.Some? ==> exists i :: (0 <= i < |query| && query[i] == (key, r.value)
                                     && forall j :: 0 <= j < i ==> query[j].0 == key ==> query[j].1 == "")
    decreases |query|
  {
    if |query| == 0 then None
    else if query[0].0 == key && query[0].1 != "" then Some(query[0].1)
    else
      var r := FirstValue(query[1..], key);
      assert forall i :: 1 <= i < |query| ==> query[i] == query[1..][i - 1];
      assert forall i :: 0 <= i < |query| - 1 ==> query[1..][i] == query[i + 1];
      r
  }

  /** `'/embed/' + rest` splits on `/` into `''`, `'embed'` and the pieces of `rest`. */
  lemma EmbedPathSplit(path: string)
    requires StartsWith(path, "/embed/")
    ensures Split(path, '/') == ["", "embed"] + Split(path[7..], '/')
  {
    var rest := path[7..];
    assert path == "" + ['/'] + ("embed" + ['/'] + rest);
    SplitAtSep("", "embed" + ['/'] + rest, '/');
    SplitAtSep("embed", rest, '/');
  }

  /** `extract_youtube_id(url)`. */
  function ExtractId(u: Url): (r: Option<string>)
    ensures !IsShortHost(u.host) && !IsLongHost(u.host) ==> r == None
    ensures IsShortHost(u.host) ==> r.Some?
    ensures IsLongHost(u.host) && u.path != "/watch" && !StartsWith(u.path, "/embed/") ==> r == None
    ensures r.Some? && IsLongHost(u.host) && StartsWith(u.path, "/embed/") ==> '/' !in r.value
  {
    if IsShortHost(u.host) then
      Some(if |u.path| == 0 then "" else u.path[1..])
    else if IsLongHost(u.host) then
      if u.path == "/watch" then FirstValue(u.query, "v")
      else if StartsWith(u.path, "/embed/") then
        EmbedPathSplit(u.path);
        Some(Split(u.path, '/')[2])
      else None
    else None
  }

  /** `if video_id:` — a missing or empty id mints no placeholder. */
  predicate HasId(r: Option<string>) {
    r.Some? && r.value != ""
  }

  // ---------------------------------------------------------------------
  // The link forms the converter recognises, and their ids

  function ShortLink(id: string): Url {
    Url(Some("youtu.be"), "/" + id, [])
  }

  function WatchLink(id: string, more: seq<(string, string)>): Url {
    Url(Some("www.youtube.com"), "/watch", [("v", id)] + more)
  }

  function EmbedLink(id: string): Url {
    Url(Some("www.youtube.com"), "/embed/" + id, [])
  }

  lemma ShortLinkId(id: string)
    ensures ExtractId(ShortLink(id)) == Some(id)
  {
    assert ("/" + id)[1..] == id;
  }

  lemma WatchLinkId(id: string, more: seq<(string, string)>)
    requires id != ""
    ensures ExtractId(WatchLink(id, more)) == Some(id)
  {
  }

  /** A watch link whose `v` values are all blank has no id. */
  lemma WatchLinkBlank(query: seq<(string, string)>)
    requires forall i :: 0 <= i < |query| ==> query[i].0 == "v" ==> query[i].1 == ""
    ensures ExtractId(Url(Some("youtube.com"), "/watch", query)) == None
  {
  }

  lemma EmbedLinkId(id: string)
    requires '/' !in id
    ensures ExtractId(EmbedLink(id)) == Some(id)
  {
    var path := "/embed/" + id;
    assert path[..7] == "/embed/" && path[7..] == id;
    EmbedPathSplit(path);
    SplitNoSep(id, '/');
  }

  /** Only the third path component counts: anything after a further `/`
      is ignored. */
  lemma EmbedLinkExtra(id: string, extra: string)
    requires '/' !in id
    ensures ExtractId(Url(Some("youtube.com"), "/embed/" + id + "/" + extra, [])) == Some(id)
  {
    var path := "/embed/" + id + "/" + extra;
    assert path[..7] == "/embed/" && path[7..] == id + ['/'] + extra;
    EmbedPathSplit(path);
    SplitAtSep(id, extra, '/');
  }

  // ---------------------------------------------------------------------
  // Embed markup

  const VideoPlayerTitle: string := "YouTube video player"

  /** The address the embed's iframe loads. */
  function EmbedSrc(id: string): string {
    "https://www.youtube.com/embed/" + id
  }

  const EmbedOpen: string := "\n<div class=\"video-container\">"
  const EmbedClose: string := "</div>"

  /** The iframe inside the container. */
  function IframeHtml(id: string, title: string): string {
    "\n    <iframe \n" + Attribute("src", EmbedSrc(id)) + Attribute("title", title)
      + Attribute("frameborder", "0") + Attribute("allow", AllowList)
      + "        allowfullscreen>\n    </iframe>\n"
  }

  function Attribute(name: string, value: string): string {
    "        " + name + "=\"" + value + "\" \n"
  }

  /** The iframe's permissions policy. */
  const AllowList: string :=
    "accelerometer" + "; autoplay" + "; clipboard-write" + "; encrypted-media"
      + "; gyroscope" + "; picture-in-picture" + "; web-share"

  /** The markup saved for a video: a `video-container` div holding the
      iframe, whose `title` is the link text for a markdown link and
      "YouTube video player" for a bare URL. */
  function EmbedHtml(id: string, title: string): string {
    EmbedOpen + IframeHtml(id, title) + EmbedClose
  }

  /** The embed is the container div, open to close. */
  lemma EmbedFrame(id: string, title: string)
    ensures var h := EmbedHtml(id, title);
      StartsWith(h, EmbedOpen) && |h| >= |EmbedOpen| + |EmbedClose| && h[|h| - |EmbedClose|..] == EmbedClose
  {
    Framed(EmbedOpen, IframeHtml(id, title), EmbedClose);
  }

  /** What a YouTube save callback stores for a link: the embed of its
      video, or nothing when no usable id can be extracted. */
  function VideoEmbed(u: Url, title: string): (r: Option<string>)
    ensures r.Some? <==> HasId(ExtractId(u))
  {
    var id := ExtractId(u);
    if id.Some? && id.value != "" then Some(EmbedHtml(id.value, title)) else None
  }

  lemma VideoEmbedHtml(u: Url, title: string)
    requires HasId(ExtractId(u))
    ensures VideoEmbed(u, title) == Some(EmbedHtml(ExtractId(u).value, title))
  {
  }

  /** Where `urlparse` ends the path of an address: at the first `?` or `#`. */
  predicate EndsPath(c: char) {
    c == '?' || c == '#'
  }

  /** The path part of what follows the host: the longest prefix free of
      `?` and `#`. */
  function PathPart(s: string): (r: string)
    ensures StartsWith(s, r)
    ensures forall i :: 0 <= i < |r| ==> !EndsPath(r[i])
    ensures |r| == |s| || EndsPath(s[|r|])
    decreases |s|
  {
    if |s| == 0 || EndsPath(s[0]) then "" else [s[0]] + PathPart(s[1..])
  }

  /** A prefix free of `?` and `#` belongs to the path whole. */
  lemma {:induction false} PathPartAfter(a: string, b: string)
    requires forall i :: 0 <= i < |a| ==> !EndsPath(a[i])
    ensures PathPart(a + b) == a + PathPart(b)
    decreases |a|
  {
    if |a| > 0 {
      assert (a + b)[0] == a[0] && (a + b)[1..] == a[1..] + b;
      PathPartAfter(a[1..], b);
      assert a == [a[0]] + a[1..];
    } else {
      assert a + b == b;
    }
  }

  /** The iframe's address is the embed link of the id. Parsed, its path
      leads back to the id up to the first `?` or `#`, which `urlparse`
      splits off; so exactly the ids free of both come back whole. A watch
      link's `v` value can hold a `?`: `watch?v=abc?t=10` gives the id
      `abc?t=10`, whose embed address names the video `abc`. */
  lemma EmbedSrcRoundTrip(id: string)
    requires '/' !in id
    ensures EmbedSrc(id) == "https://www.youtube.com" + EmbedLink(id).path
    ensures ExtractId(Url(Some("www.youtube.com"), PathPart(EmbedLink(id).path), []))
      == Some(PathPart(id))
    ensures PathPart(id) == id <==> '?' !in id && '#' !in id
  {
    EmbedSrcPath(id);
    var p := PathPart(id);
    EmbedPathPart(id);
    assert '/' !in p by {
      assert forall i :: 0 <= i < |p| ==> p[i] == id[i];
    }
    EmbedLinkId(p);
    PathPartWhole(id);
  }

  lemma EmbedSrcPath(id: string)
    ensures EmbedSrc(id) == "https://www.youtube.com" + EmbedLink(id).path
  {
  }

  lemma EmbedPathPart(id: string)
    ensures PathPart(EmbedLink(id).path) == EmbedLink(PathPart(id)).path
  {
    var e := "/embed/";
    assert forall i :: 0 <= i < |e| ==> !EndsPath(e[i]);
    PathPartAfter(e, id);
  }

  lemma PathPartWhole(s: string)
    ensures PathPart(s) == s <==> '?' !in s && '#' !in s
  {
    if '?' !in s && '#' !in s {
      assert forall i :: 0 <= i < |s| ==> !EndsPath(s[i]);
      PathPartAfter(s, "");
      assert s + "" == s;
    }
  }
}
