# Marp slide converters: a Dafny model of the text-rewriting core

The repository turns Marp slide decks (markdown with `---` slide separators
and a YAML front matter) into single-page HTML. Three converter scripts share
the same pieces:

- **The slide splitter** `parse_marp_markdown`. It walks the lines of the
  deck with two states, front matter and slides. It drops the front matter
  and cuts the rest at `---` lines into numbered slides; the first slide is
  the lead slide. All three scripts carry an identical copy, modelled once in
  `slides.dfy`.
- **Placeholder protection** in the continuous converters' `markdown_to_html`.
  A `re.sub` pass swaps each fenced code block, or each YouTube link, for a
  token `%%%{KEYWORD}{idx}%%%` and saves the block in a list. Later
  `str.replace` puts each block back. The tokens are `TEMPCODE` (protects
  fences from the YouTube passes), `YOUTUBE` (video embeds) and `CODEBLOCK`
  (highlighted code kept away from markdown2). The video id comes from
  `extract_youtube_id`. The files are `tokens.dfy`, `restore.dfy`,
  `youtube.dfy` and `protect.dfy`.
- **Two post-render fixers** of the continuous converter.
  `convert_urls_to_links` turns plain URLs outside `<a>` elements into links
  (`linkify.dfy`). `fix_youtube_embed_layout` takes a video container out of
  the paragraph markdown wrapped it in (`layout.dfy`).
- **The Brutalism renderer** `markdown_to_html`. It rewrites heading lines,
  then runs a line machine that opens, switches and closes `<ul>`/`<ol>`
  lists and wraps other lines in paragraphs (`brutalism.dfy`).

`text.dfy` holds the Python string operations these are written in:
`str.isspace`, `str.strip`, `str.split` and `str.join` on one character,
`str.replace`, and the decimal rendering of an index.

Regular-expression matching is not re-implemented. Each stage takes its
input already cut into the spans the pattern matches and the text between
them: chunks for the protection passes, anchors and URL pieces for the
linkifier, embed matches for the layout fixer. URLs reach `extract_youtube_id`
already parsed into host, path and query pairs. The model proves what each
stage does with such a segmentation.

## Model

| member | source | states |
|---|---|---|
| Text.Strip | convert_to_continuous.py:82 | the result of `str.strip()` is trimmed, no longer than the input, and empty exactly when the input is all whitespace |
| Text.StripSlice | convert_to_continuous.py:82 | `str.strip()` removes whitespace from both ends only: the result is the input with a whitespace-only head and a whitespace-only tail cut off |
| Text.StripIdempotent | convert_to_continuous.py:82 | stripping stripped text changes nothing |
| Text.JoinSplit | convert_to_continuous.py:58 | joining the pieces of `split('\n')` with `'\n'` gives back the text |
| Text.SplitJoin | convert_to_brutalism.py:83 | splitting a `'\n'`-join of newline-free lines gives back those lines |
| Text.DecimalRoundTrip | convert_to_continuous.py:248 | the decimal digits an f-string writes for an index read back as that index |
| Text.DecimalInjective | convert_to_continuous.py:248 | two different indices are written as different digit strings |
| Text.ReplaceAbsent | convert_to_continuous.py:312 | `str.replace` of a pattern that does not occur leaves the text as it is |
| Tokens.Token | convert_to_continuous.py:248 | a placeholder is three `%`, the keyword, the index's digits and three `%` |
| Tokens.KeywordInOwnToken | convert_to_continuous.py:248 | the keyword occurs inside its own placeholder only right after the opening `%%%` |
| Tokens.TokenNotInfix | convert_to_continuous_v3.py:157 | a placeholder never occurs inside another placeholder of the same keyword with a different index, e.g. `%%%CODEBLOCK1%%%` is not inside `%%%CODEBLOCK10%%%` |
| Tokens.TokenPrefix | convert_to_continuous_v3.py:177 | a placeholder starts with another placeholder of its keyword only when their indices are equal |
| Tokens.KeywordFacts | convert_to_continuous.py:248-272 | none of the three keywords contains `%`, and `YOUTUBE` neither contains nor occurs in `TEMPCODE` or `CODEBLOCK` |
| Restore.ReplaceOne | convert_to_continuous.py:312 | when the keyword occurs only inside placeholders, one `replace` swaps exactly the placeholders of its index for the block and nothing else |
| Restore.RestoreUpToFills | convert_to_continuous.py:311-312 | the restore loop run for the first `n` indices puts each of those blocks where its placeholders were |
| Restore.RestoreWithoutKeyword | convert_to_continuous.py:311-312 | restoring text in which the keyword does not occur changes nothing |
| Restore.RestoreLeavesNoKeyword | convert_to_continuous.py:311-312 | when every placeholder's index has a block, no occurrence of the keyword is left after the loop |
| Restore.RestoreIdempotent | convert_to_continuous.py:311-312 | running the restore loop a second time changes nothing |
| Restore.RestorePieces | convert_to_continuous_v3.py:175-177 | restoring a text made of literal text, placeholders and sealed blocks gives that text with every placeholder of the keyword filled in; the result still meets the condition for the next keyword |
| Restore.CleanAfterFill | convert_to_continuous.py:344-351 | filling in one keyword's blocks keeps the condition under which another keyword's restore is exact |
| Restore.TokenBlocked | convert_to_continuous.py:321 | another keyword's placeholder, seen by this keyword's restore, is a sealed part: it neither starts nor ends with a letter of the keyword and does not contain it |
| Restore.RestorePiecesComplete | convert_to_continuous.py:349-351 | when every placeholder has a block, restoring leaves no trace of the keyword and is idempotent |
| VideoLinks.FirstValue | convert_to_continuous.py:119-120 | `parse_qs(query).get('v', [None])[0]`: some value exactly when a pair with the key and a non-blank value exists, and then the value of the first such pair |
| VideoLinks.ExtractId | convert_to_continuous.py:108-124 | any host other than the four YouTube ones gives no id; a short host always gives one; a long host with a path other than `/watch` or `/embed/…` gives none; an embed id has no `/` |
| VideoLinks.ShortLinkId | convert_to_continuous.py:113-114 | `youtu.be/ID` gives `ID` |
| VideoLinks.WatchLinkId | convert_to_continuous.py:118-120 | `youtube.com/watch?v=ID&…` gives `ID` |
| VideoLinks.WatchLinkBlank | convert_to_continuous.py:118-120 | a watch link whose `v` values are all blank gives no id |
| VideoLinks.EmbedLinkId | convert_to_continuous.py:121-122 | `youtube.com/embed/ID` gives `ID` |
| VideoLinks.EmbedLinkExtra | convert_to_continuous.py:121-122 | only the third path component counts: `/embed/ID/more` gives `ID` |
| VideoLinks.EmbedFrame | convert_to_continuous.py:261-270 | the saved embed starts with the `video-container` div and ends with its `</div>` |
| VideoLinks.VideoEmbed | convert_to_continuous.py:257-259 | a save callback stores an embed exactly when the id is present and non-empty |
| VideoLinks.EmbedSrcRoundTrip | convert_to_continuous.py:264 | the iframe's address is the embed link of the id; parsed, with its path ending at the first `?` or `#`, it gives back the id up to that character, so exactly the ids free of `?` and `#` come back whole |
| Protect.Mint | convert_to_continuous.py:245-294 | a callback saves something only for its own pattern's match; the fence and code passes save every match |
| Protect.Fold | convert_to_continuous.py:245-251 | the `re.sub` fold appends one block per saved match and keeps the blocks already in the list |
| Protect.Save | convert_to_continuous_v3.py:153-160 | after a pass the list holds exactly as many new blocks as the callback saved |
| Protect.SavePlaces | convert_to_continuous_v3.py:154-157 | a match with nothing saved is left as it is; the match saved as the list's `n`th block becomes `%%%{KW}{n}%%%`, with `n` the blocks before it plus the earlier saved matches, and block `n` is what the callback returned |
| Protect.SaveKeepsOrHolds | convert_to_continuous.py:245-251 | every chunk either stays as it is or becomes a placeholder of the pass's keyword whose index has a block |
| Protect.LinkMint | convert_to_continuous.py:275-294 | a markdown link in watch, short or embed form saves the embed of its video id titled with the link text; a `youtu.be/` link with no id saves nothing |
| Protect.BareMint | convert_to_continuous.py:255-273 | each bare-URL pass, on its own link form, saves the embed of the video id titled "YouTube video player" |
| Protect.BareOtherShape | convert_to_continuous.py:301-308 | a bare-URL pass leaves the URLs of the other two shapes alone |
| Protect.YouTubeSwapsVideos | convert_to_continuous.py:296-308 | after all four YouTube passes, sharing one list, each chunk is unchanged or is a YOUTUBE placeholder in the place of a link whose id is usable |
| Protect.FencesProtect | convert_to_continuous.py:242-251 | the TEMPCODE pass replaces each fenced block by a placeholder whose index holds exactly that block, and changes nothing else |
| Protect.PassesProtect | convert_to_continuous.py:301-308 | on the TEMPCODE-protected document the YouTube passes save the same embeds as when they are applied outside the fences only, and they keep every TEMPCODE placeholder in place |
| Protect.CodeProtection | convert_to_continuous.py:241-312 | when TEMPCODE occurs neither in a fence nor in the text between fences, protecting the fences, running the YouTube passes and restoring the fences gives the YouTube passes applied outside the fences with every fence restored verbatim in its place, and the same embeds saved |
| Protect.CodesFill | convert_to_continuous.py:315-324 | filling the CODEBLOCK placeholders with the saved blocks gives the document with every such block highlighted |
| Protect.CodeBlockRoundTrip | convert_to_continuous_v3.py:150-177 | saving highlighted blocks under CODEBLOCK placeholders and restoring them by `replace` gives the highlighted document |
| Protect.RestoreHtml | convert_to_continuous.py:344-351 | restoring CODEBLOCK and then YOUTUBE gives the document with both kinds of placeholder filled |
| Protect.RestoreHtmlComplete | convert_to_continuous.py:344-351 | when every YOUTUBE placeholder has an embed, no `YOUTUBE` is left in the restored HTML |
| Slides.Parse | convert_to_continuous.py:53-106 | the slides are numbered 1..n in order, lead exactly for number 1, each non-empty and trimmed, and they are the non-empty sections after the front matter |
| Slides.ParseMatchesSections | convert_to_continuous_v3.py:58-111 | the line fold equals the reference description: the non-empty stripped sections after the front matter, numbered from 1 |
| Slides.FrontPhase | convert_to_continuous.py:66-76 | once a line is buffered, lines are buffered up to the first separator, which ends the front matter and empties the buffer |
| Slides.FrontStart | convert_to_continuous.py:71-76 | the first line is buffered whatever it is, a leading `---` included |
| Slides.BodyPhase | convert_to_continuous.py:79-104 | in the slides phase the fold adds exactly the non-empty sections of the remaining lines, numbered on from the slides so far |
| Slides.FrontMatterDiscarded | convert_to_brutalism.py:26-36 | everything before the first separator after the first line is dropped, metadata or not |
| Slides.UnclosedFrontMatter | convert_to_continuous_v3.py:70-109 | with no separator after the first line, the whole document, a leading `---` included, becomes slide 1, or no slide if it is blank |
| Slides.ExampleDeck | convert_to_continuous.py:64-104 | the deck `---`, `title: x`, `---`, `# Hello`, `---`, `Body text`, `---` gives exactly the slides `# Hello` (lead) and `Body text` |
| Slides.SlideCount | convert_to_continuous_v3.py:86-96 | one slide per non-empty section: empty sections use no number |
| Slides.ContentStripped | convert_to_brutalism.py:39-64 | every slide's content equals its own `.strip()` |
| Slides.NumberingWellFormed | convert_to_continuous_v3.py:84-109 | numbering valid contents gives slides numbered 1..n with the lead flag on number 1 only |
| Linkify.FullUrl | convert_to_continuous.py:170-173 | the href is the URL itself, or `http://` before it exactly when it starts with `www.` |
| Linkify.LocationPart | convert_to_continuous.py:176 | the network location runs from the start up to the first `/`, `?` or `#` |
| Linkify.Netloc | convert_to_continuous.py:176-177 | the netloc of an `http://` or `https://` address is its location part after the scheme; text with neither scheme has an empty netloc |
| Linkify.Display | convert_to_continuous.py:177 | the link text is the netloc of the href, or the URL when the netloc is empty, and never empty for a non-empty URL |
| Linkify.DisplayIsHost | convert_to_continuous.py:160-177 | for a match of the URL pattern the link text is the host it names, never empty |
| Linkify.ReplaceUrl | convert_to_continuous.py:162-179 | a URL is returned unchanged exactly when it contains `youtube.com` or `youtu.be`; otherwise it grows into an anchor |
| Linkify.AnchorRoundTrip | convert_to_continuous.py:179 | the anchor markup reads back as its href and its text |
| Linkify.LinkTargetsUrl | convert_to_continuous.py:162-179 | a non-YouTube URL without `"` becomes an anchor whose href is the full URL, which ends with the URL, and whose text is the display text |
| Linkify.LinkTargetsQuote | convert_to_continuous.py:179 | a non-YouTube URL holding `"` gives an anchor that does not read back as its href and text: the quote ends the `href` attribute |
| Linkify.OneLabelMatches | convert_to_continuous.py:160 | an address of the pattern's one-label shape (scheme, `[a-zA-Z0-9-]+`, `.`, `[a-zA-Z]{2,}`, then nothing or `/` and a run free of whitespace, `<` and `>`) meets every condition `IsUrlMatch` collects |
| Linkify.QuotedUrl | convert_to_continuous.py:160-179 | an address of that shape whose path holds a `"`, and which has no `y` and so no YouTube domain, is not a video URL, and its anchor does not read back |
| Linkify.QuotedExample | convert_to_continuous.py:160-179 | `https://x.com/a"b` has that shape, is not a YouTube URL, and its anchor does not read back |
| Linkify.LinkifyAppend | convert_to_continuous.py:183-202 | converting the spans piecewise and joining the results equals converting the whole document |
| Linkify.AnchorsVerbatim | convert_to_continuous.py:193-195 | every existing `<a>…</a>` element appears unchanged in the output, right after the output of the spans before it |
| Linkify.PieceGrows | convert_to_continuous.py:166-179 | a converted piece is never shorter than its text, and equals it exactly when it is plain text or a YouTube URL |
| Linkify.GapGrows | convert_to_continuous.py:190 | a converted gap is never shorter than its text, and equals it exactly when every URL in it is a YouTube URL |
| Linkify.LinkifyGrows | convert_to_continuous.py:185-202 | the output is never shorter than the input, and equals it exactly when every URL found outside the anchors is a YouTube URL |
| Layout.CleanTags | convert_to_continuous.py:376 | removing `<br>`, `<strong>` and `<em>` tags never makes text longer |
| Layout.CleanPlain | convert_to_continuous.py:376 | text with no `<` passes through tag removal unchanged |
| Layout.CleanAfterTag | convert_to_continuous.py:376 | each of `<br>`, `<br/>`, `<br />`, `<strong>`, `</strong>`, `<em>`, `</em>` is removed |
| Layout.VisibleTagFree | convert_to_continuous.py:374-378 | for text without tags, "visible" means not all whitespace |
| Layout.BlankPiecesInvisible | convert_to_continuous.py:374-378 | text made only of whitespace and inline tags such as `<br>` is not visible |
| Layout.Lead | convert_to_continuous.py:373-378 | the before-part is emitted exactly when it is visible |
| Layout.Trail | convert_to_continuous.py:383-388 | the after-part is emitted exactly when it is visible |
| Layout.ReplaceEmbed | convert_to_continuous.py:366-390 | the output always holds the unwrapped `video-container` div, right after the before-paragraph if there is one |
| Layout.ReplaceEmbedStart | convert_to_continuous.py:373-381 | the output starts with `<p>` exactly when the before-text is visible; then it starts with the paragraph of the stripped but uncleaned text, a blank line and the container, and otherwise with the container |
| Layout.ReplaceEmbedEnd | convert_to_continuous.py:381-388 | the output ends with `</p>` exactly when the after-text is visible; then it ends with the container, a blank line and the paragraph of the stripped but uncleaned text, and otherwise with the container |
| Layout.FixLayoutAppend | convert_to_continuous.py:393 | the substitution works match by match: fixing the spans piecewise and joining equals fixing the whole |
| Layout.SpanInPlace | convert_to_continuous.py:393 | each span's result appears at its place in the output, with nothing re-scanned |
| Layout.NoEmbedUnchanged | convert_to_continuous.py:393 | HTML with no embedded video is left unchanged |
| Brutal.HeadingByLevel | convert_to_brutalism.py:71-73 | running the three rules in order rewrites `# `, `## `, `### ` lines to `h1`, `h2`, `h3` and leaves other lines alone |
| Brutal.H2Fires | convert_to_brutalism.py:71-72 | a `## x` line is not matched by the `h1` rule and becomes an `h2` |
| Brutal.HeadingsLines | convert_to_brutalism.py:71-73 | the heading pass rewrites each line separately and keeps the line structure |
| Brutal.HeadingParagraph | convert_to_brutalism.py:111-123 | a rewritten heading line reaches the line machine as a paragraph, whole |
| Brutal.NumberPrefix | convert_to_brutalism.py:100 | a positive prefix length is a non-empty digit run followed by `. `, and every line that starts with such a run and `. ` gets exactly that length |
| Brutal.OneIsNumbered | convert_to_brutalism.py:100 | a `1. ` line is a case of the numbered pattern |
| Brutal.NumberStripped | convert_to_brutalism.py:109 | the whole number and its `. ` are removed from a numbered item, whatever its digits, leading zeros included |
| Brutal.Enter | convert_to_brutalism.py:90-110 | an item line leaves its kind's list open and ends the output with its item |
| Brutal.Leave | convert_to_brutalism.py:111-125 | a non-item line leaves no list open and keeps the output so far |
| Brutal.Step | convert_to_brutalism.py:88-125 | each line only appends to the output |
| Brutal.StepWalk | convert_to_brutalism.py:95-108 | after each line the output's tags are balanced except for the list still open: switching kinds closes the open list with its own tag first |
| Brutal.RunWalk | convert_to_brutalism.py:88-125 | after any number of lines, the output's open list is exactly the machine's open list |
| Brutal.RenderNested | convert_to_brutalism.py:127-128 | the final output opens and closes lists in matching pairs, never nests them, and leaves none open |
| Brutal.ListOpenAfter | convert_to_brutalism.py:90-125 | whatever the machine's state, a list is open after a line exactly when that line is an item |
| Brutal.AdvanceContent | convert_to_brutalism.py:111-125 | apart from list tags, a line adds its item, its paragraph, nothing for a blank line inside a list, or an empty line outside one |
| Brutal.RunContent | convert_to_brutalism.py:88-125 | the machine's open list and its output without list tags match a reference computed line by line from whether the previous line was an item |
| Brutal.RenderContent | convert_to_brutalism.py:83-130 | the rendered lines, list tags aside, are exactly the reference: items, paragraphs and the blank lines outside lists |

## Left out

- markdown2 and Pygments are external libraries. The document between protection and restoration is a given sequence of pieces, and the highlighter is a function parameter of the `Codes` pass.
- `highlight_code_block`'s own output (language label, lexer choice, the fallback without Pygments) is not modelled; the CODEBLOCK pass always runs, as when Pygments is installed.
- `urlparse` and `parse_qs` are not re-implemented. `extract_youtube_id` takes the parsed host, path and query pairs. The linkifier's netloc is modelled only for `http://` and `https://` addresses, which are the only ones it builds.
- Python's regex engine is not modelled. Each pass receives the segmentation its pattern produces; which spans match (non-greedy, DOTALL) is given, not derived.
- `convert_youtube_links` is never called by the converters and is not modelled.
- The Brutalism bold, inline-code and code-block substitutions (convert_to_brutalism.py:75-80) are the `inline` function parameter of `MarkdownToHtml`.
- Templates, CSS, JavaScript, file and directory I/O and the command line are not modelled.
- Protect.CodeProtection: proved under the hypothesis that `TEMPCODE` occurs neither inside a fenced block nor in the text between fenced blocks. Merely excluding `%%%TEMPCODE` is not enough. A document such as ```` ```A``` ```B```TEMPCODE0```C``` ```` can produce an occurrence of the placeholder for index 0 that straddles the closing `%%%` of placeholder 1. The `replace` for index 0 then also rewrites that occurrence.
- Restore.RestorePieces, Protect.CodeBlockRoundTrip, Protect.RestoreHtml: the blocks put back must not start or end with a capital letter of the keyword or contain it, and the keyword must occur only inside placeholders. The converters' HTML meets this in practice, but it is a hypothesis, not a consequence.
- Protect.YouTubeSwapsVideos: a fence inside a YouTube markdown link's label (which the TEMPCODE pass would cut through) is not a segmentation the model admits.
- Protect.CodeProtection, Protect.PassesProtect: a fenced block is a chunk the YouTube passes never look into, so "the passes applied outside the fences" is the reference the theorem compares with. Without the TEMPCODE pass the converter's YouTube patterns would also rewrite links inside fences; that behaviour is not modelled.
- Linkify.QuotedUrl, Linkify.OneLabelMatches: `IsUrlMatch` collects conditions every match of the URL pattern meets; it is not the pattern itself (`https://a"` meets them and is no match). `OneLabelForm` is the pattern's shape with one domain label. That such an address, standing alone, is exactly what `re.sub` matches follows from how its greedy runs stop and is stated, not proved, since the regex engine is not modelled.
- Linkify.LinkTargetsUrl: holds only for URLs without `"`. The URL pattern's `[^\s<>]*` lets a `"` through, and the converter writes the URL into `href="…"` unescaped, so the attribute ends early (`Linkify.LinkTargetsQuote`, `Linkify.QuotedExample`). Whether markdown2's output can hand such a URL to the linkifier depends on markdown2 and is not modelled.
- VideoLinks.EmbedSrcRoundTrip: a watch link's `v` value may hold `?` (the markdown-link pattern accepts `watch?v=abc?t=10`, giving the id `abc?t=10`); its embed address then names the video `abc`, and the id does not come back whole.
- Layout.SpanInPlace: "no re-scan" is shown by the structure of one substitution over given matches; the scan itself is not modelled.
- `\d` and the digits of an index are ASCII `0`-`9`; Unicode decimal digits are left out.
- The inner `pass` branch at convert_to_brutalism.py:112-114 cannot be reached (those lines were already taken by the two item branches) and has no counterpart in the model.
- The example deck is proved on its lines (`ExampleDeck`); the step from the document string to its lines is `Text.JoinSplit` / `Text.SplitJoin`.
