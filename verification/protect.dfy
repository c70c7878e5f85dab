/** The placeholder protection in `markdown_to_html`: a regex pass saves
    every match it selects into a list and puts `%%%{KW}{idx}%%%` in its
    place, with `idx` the list's length before the append.

    The document is taken already cut into chunks: the spans a pattern
    matches and the text in between. Four kinds of pass are modelled, all
    with the one fold `Save`: fenced blocks (`TEMPCODE`), markdown links to
    YouTube and the three bare YouTube URL shapes (`YOUTUBE`, one shared
    list), and fenced blocks with a language line (`CODEBLOCK`). */
module Protect {
  import opened Text
  import opened Tokens
  import opened Restore
  import opened VideoLinks

  /** Which of the three bare URL patterns matched. */
  datatype Shape = WatchShape | ShortShape | EmbedShape

  /** A span of the document. `Fence` is a match of the plain fence pattern
      (its whole text); `Code` a match of the fence-with-language pattern;
      `MdLink` a markdown link to YouTube, `Bare` a bare YouTube URL, each
      with its address as written and as parsed; `Held` a placeholder. */
  datatype Chunk =
    | Prose(s: string)
    | Fence(src: string)
    | Code(lang: Option<string>, body: string)
    | MdLink(linkText: string, raw: string, url: Url)
    | Bare(shape: Shape, raw: string, url: Url)
    | Held(kw: string, idx: nat)

  /** The text of a fenced block with a language line. */
  function CodeText(lang: Option<string>, body: string): string {
    "```" + (if lang.Some? then lang.value else "") + "\n" + body + "```"
  }

  /** How a chunk reads in the text, as a piece of possibly protected text. */
  function PieceOf(c: Chunk): Piece {
    match c
    case Prose(s) => Lit(s)
    case Fence(src) => Block(src)
    case Code(lang, body) => Block(CodeText(lang, body))
    case MdLink(linkText, raw, _) => Lit("[" + linkText + "](" + raw + ")")
    case Bare(_, raw, _) => Lit(raw)
    case Held(kw, i) => Slot(kw, i)
  }

  function Pieces(chs: seq<Chunk>): (r: seq<Piece>)
    ensures |r| == |chs|
    ensures forall i :: 0 <= i < |chs| ==> r[i] == PieceOf(chs[i])
  {
    seq(|chs|, i requires 0 <= i < |chs| => PieceOf(chs[i]))
  }

  /** The text a chunk list stands for. */
  function TextOf(chs: seq<Chunk>): string {
    Render(Pieces(chs))
  }

  /** A regex pass and the block its callback saves. `Codes` carries the
      highlighter, which is not part of this model. */
  datatype Pass =
    | Fences
    | Links
    | Bares(shape: Shape)
    | Codes(highlight: (Option<string>, string) -> string)

  /** The chunks a pass's pattern matches. */
  predicate Matches(p: Pass, c: Chunk) {
    match p
    case Fences => c.Fence?
    case Codes(_) => c.Code?
    case Links => c.MdLink?
    case Bares(shape) => c.Bare? && c.shape == shape
  }

  /** What the pass's callback saves for a chunk; `None` when the chunk is
      not this pass's match, or is a YouTube match without a usable id (the
      callback then returns the match unchanged). */
  function Mint(p: Pass, c: Chunk): (r: Option<string>)
    ensures r.Some? ==> Matches(p, c)
    ensures Matches(p, c) && !p.Links? && !p.Bares? ==> r.Some?
  {
    match p
    case Fences => if c.Fence? then Some(c.src) else None
    case Codes(highlight) => if c.Code? then Some(highlight(c.lang, c.body)) else None
    case Links => if c.MdLink? then VideoEmbed(c.url, c.linkText) else None
    case Bares(shape) =>
      if c.Bare? && c.shape == shape then VideoEmbed(c.url, VideoPlayerTitle) else None
  }

  /** What the callback returns for each chunk, in order. */
  function Mints(p: Pass, chs: seq<Chunk>): (ms: seq<Option<string>>)
    ensures |ms| == |chs|
    ensures forall i :: 0 <= i < |chs| ==> ms[i] == Mint(p, chs[i])
  {
    seq(|chs|, i requires 0 <= i < |chs| => Mint(p, chs[i]))
  }

  /** Number of blocks saved. */
  function Count(ms: seq<Option<string>>): (n: nat)
    ensures n <= |ms|
    decreases |ms|
  {
    if |ms| == 0 then 0 else (if ms[0].Some? then 1 else 0) + Count(ms[1..])
  }

  datatype Saved = Saved(chunks: seq<Chunk>, blocks: seq<string>)

  /** The `re.sub` fold: the chunks, what the callback returned for each,
      and the list the blocks go to (`blocks`, its contents so far). A
      returned block is appended and its chunk becomes the placeholder whose
      index is the list's length before the append. */
  function Fold(kw: string, chs: seq<Chunk>, ms: seq<Option<string>>, blocks: seq<string>): (r: Saved)
    requires |ms| == |chs|
    ensures |r.chunks| == |chs|
    ensures |r.blocks| == |blocks| + Count(ms)
    ensures r.blocks[..|blocks|] == blocks
    decreases |chs|
  {
    if |chs| == 0 then Saved([], blocks)
    else
      match ms[0]
      case Some(h) =>
        var rest := Fold(kw, chs[1..], ms[1..], blocks + [h]);
        assert rest.blocks[..|blocks|] == (rest.blocks[..|blocks| + 1])[..|blocks|];
        Saved([Held(kw, |blocks|)] + rest.chunks, rest.blocks)
      case None =>
        var rest := Fold(kw, chs[1..], ms[1..], blocks);
        Saved([chs[0]] + rest.chunks, rest.blocks)
  }

  /** `re.sub(pattern, save, text)` with `blocks` as the list so far. */
  function Save(p: Pass, kw: string, chs: seq<Chunk>, blocks: seq<string>): (r: Saved)
    ensures |r.chunks| == |chs|
    ensures |r.blocks| == |blocks| + Count(Mints(p, chs))
    ensures r.blocks[..|blocks|] == blocks
  {
    Fold(kw, chs, Mints(p, chs), blocks)
  }

  // ---------------------------------------------------------------------
  // What one pass does

  /** Where the fold puts each chunk. A chunk with nothing returned stays as
      it is. The chunk saved as block `n` of the list (counting the blocks
      there before, and the earlier chunks saved) becomes placeholder `n`,
      and block `n` is what was returned for it. */
  lemma {:induction false} FoldSpec(kw: string, chs: seq<Chunk>, ms: seq<Option<string>>, acc: seq<string>, i: nat)
    requires |ms| == |chs| && i < |chs|
    ensures FoldPlaces(kw, chs, ms, acc, i)
    decreases |chs|
  {
    FoldHead(kw, chs, ms, acc);
    if i == 0 {
      assert ms[..0] == [];
    } else {
      FoldSpec(kw, chs[1..], ms[1..], Appended(acc, ms[0]), i - 1);
      FoldStep(kw, chs, ms, acc, i);
    }
  }

  /** Where the fold puts chunk `i`, as stated above. */
  predicate FoldPlaces(kw: string, chs: seq<Chunk>, ms: seq<Option<string>>, acc: seq<string>, i: nat)
    requires |ms| == |chs| && i < |chs|
  {
    var r := Fold(kw, chs, ms, acc);
    var n := |acc| + Count(ms[..i]);
    && (ms[i].None? ==> r.chunks[i] == chs[i])
    && (ms[i].Some? ==> n < |r.blocks| && r.chunks[i] == Held(kw, n) && r.blocks[n] == ms[i].value)
  }

  lemma FoldStep(kw: string, chs: seq<Chunk>, ms: seq<Option<string>>, acc: seq<string>, i: nat)
    requires |ms| == |chs| && 0 < i < |chs|
    requires FoldPlaces(kw, chs[1..], ms[1..], Appended(acc, ms[0]), i - 1)
    ensures FoldPlaces(kw, chs, ms, acc, i)
  {
    var acc' := Appended(acc, ms[0]);
    FoldHead(kw, chs, ms, acc);
    assert chs[1..][i - 1] == chs[i] && ms[1..][i - 1] == ms[i];
    assert |acc| + Count(ms[..i]) == |acc'| + Count(ms[1..][..i - 1]) by {
      assert ms[..i][0] == ms[0] && ms[..i][1..] == ms[1..][..i - 1];
    }
    var r, rest := Fold(kw, chs, ms, acc), Fold(kw, chs[1..], ms[1..], acc');
    assert r.chunks[i] == rest.chunks[i - 1] && r.blocks == rest.blocks;
  }

  /** The list after one more callback result. */
  function Appended(acc: seq<string>, m: Option<string>): seq<string> {
    if m.Some? then acc + [m.value] else acc
  }

  /** One step of the fold. */
  lemma FoldHead(kw: string, chs: seq<Chunk>, ms: seq<Option<string>>, acc: seq<string>)
    requires |ms| == |chs| > 0
    ensures var r := Fold(kw, chs, ms, acc);
      var rest := Fold(kw, chs[1..], ms[1..], Appended(acc, ms[0]));
      && r.blocks == rest.blocks && r.chunks[1..] == rest.chunks
      && (ms[0].None? ==> r.chunks[0] == chs[0])
      && (ms[0].Some? ==> |acc| < |r.blocks| && r.chunks[0] == Held(kw, |acc|) && r.blocks[|acc|] == ms[0].value)
  {
    var rest := Fold(kw, chs[1..], ms[1..], Appended(acc, ms[0]));
    if ms[0].Some? {
      assert rest.blocks[..|acc| + 1] == acc + [ms[0].value];
    }
  }

  /** The blocks depend only on what was returned, not on the chunks. */
  lemma {:induction false} FoldBlocks(kw: string, xs: seq<Chunk>, ys: seq<Chunk>, ms: seq<Option<string>>, acc: seq<string>)
    requires |ms| == |xs| == |ys|
    ensures Fold(kw, xs, ms, acc).blocks == Fold(kw, ys, ms, acc).blocks
    decreases |xs|
  {
    if |xs| > 0 {
      FoldBlocks(kw, xs[1..], ys[1..], ms[1..], Appended(acc, ms[0]));
    }
  }

  /** Every block saved is one the callback returned. */
  lemma {:induction false} FoldBlocked(kw: string, chs: seq<Chunk>, ms: seq<Option<string>>, acc: seq<string>, other: string)
    requires |ms| == |chs| && AllBlocked(other, acc)
    requires forall i :: 0 <= i < |ms| && ms[i].Some? ==> Blocked(other, ms[i].value)
    ensures AllBlocked(other, Fold(kw, chs, ms, acc).blocks)
    decreases |chs|
  {
    if |chs| > 0 {
      assert forall i :: 0 <= i < |ms| - 1 ==> ms[1..][i] == ms[i + 1];
      FoldBlocked(kw, chs[1..], ms[1..], Appended(acc, ms[0]), other);
    }
  }

  /** A pass puts placeholders of its own keyword, indexed within the
      list, in the place of the chunks it saves, and changes nothing else. */
  lemma SaveKeepsOrHolds(p: Pass, kw: string, chs: seq<Chunk>, acc: seq<string>)
    ensures var r := Save(p, kw, chs, acc);
      forall i :: 0 <= i < |chs| ==>
        (Mint(p, chs[i]).None? ==> r.chunks[i] == chs[i])
        && (Mint(p, chs[i]).Some? ==> r.chunks[i].Held? && r.chunks[i].kw == kw && r.chunks[i].idx < |r.blocks|)
  {
    var ms := Mints(p, chs);
    var r := Fold(kw, chs, ms, acc);
    forall i | 0 <= i < |chs|
      ensures ms[i].None? ==> r.chunks[i] == chs[i]
      ensures ms[i].Some? ==> r.chunks[i].Held? && r.chunks[i].kw == kw && r.chunks[i].idx < |r.blocks|
    {
      FoldSpec(kw, chs, ms, acc, i);
    }
  }

  /** Chunk lists on which a pass's callback returns the same get the same
      blocks, and the same placeholder wherever a block is saved; elsewhere
      each keeps its own chunk. */
  lemma SaveAgree(p: Pass, kw: string, xs: seq<Chunk>, ys: seq<Chunk>, acc: seq<string>)
    requires Mints(p, xs) == Mints(p, ys)
    ensures Save(p, kw, xs, acc).blocks == Save(p, kw, ys, acc).blocks
    ensures forall i :: 0 <= i < |xs| ==>
      if Mint(p, xs[i]).Some? then Save(p, kw, xs, acc).chunks[i] == Save(p, kw, ys, acc).chunks[i]
      else Save(p, kw, xs, acc).chunks[i] == xs[i] && Save(p, kw, ys, acc).chunks[i] == ys[i]
  {
    var ms := Mints(p, xs);
    FoldBlocks(kw, xs, ys, ms, acc);
    forall i | 0 <= i < |xs|
      ensures if ms[i].Some? then Fold(kw, xs, ms, acc).chunks[i] == Fold(kw, ys, ms, acc).chunks[i]
        else Fold(kw, xs, ms, acc).chunks[i] == xs[i] && Fold(kw, ys, ms, acc).chunks[i] == ys[i]
    {
      FoldSpec(kw, xs, ms, acc, i);
      FoldSpec(kw, ys, ms, acc, i);
    }
  }

  // ---------------------------------------------------------------------
  // Several passes into one list

  /** Runs the passes in order, each on the previous one's output and
      saving into the same list. */
  function Passes(ps: seq<Pass>, kw: string, chs: seq<Chunk>, acc: seq<string>): (r: Saved)
    ensures |r.chunks| == |chs|
    decreases |ps|
  {
    if |ps| == 0 then Saved(chs, acc)
    else
      var s := Save(ps[0], kw, chs, acc);
      Passes(ps[1..], kw, s.chunks, s.blocks)
  }

  predicate IsVideoPass(p: Pass) {
    p.Links? || p.Bares?
  }

  /** The markdown-link pass, then the watch, short and embed URL passes. */
  function VideoPasses(): (ps: seq<Pass>)
    ensures forall k :: 0 <= k < |ps| ==> IsVideoPass(ps[k])
  {
    [Links, Bares(WatchShape), Bares(ShortShape), Bares(EmbedShape)]
  }

  /** Step 2 of `markdown_to_html`: every YouTube pass, sharing
      `youtube_embeds`, which starts empty. */
  function YouTubePasses(chs: seq<Chunk>): (r: Saved)
    ensures |r.chunks| == |chs|
  {
    Passes(VideoPasses(), YouTube, chs, [])
  }

  /** The chunk a YouTube pass turned `c` into: `c` itself, or a YOUTUBE
      placeholder in the place of a link whose id is usable. */
  predicate VideoSwap(c: Chunk, x: Chunk) {
    || x == c
    || (x.Held? && x.kw == YouTube && (c.MdLink? || c.Bare?) && HasId(ExtractId(c.url)))
  }

  /** The YouTube passes touch nothing but links with a usable id, each of
      which becomes a YOUTUBE placeholder. */
  lemma {:induction false} PassesSwapVideos(ps: seq<Pass>, chs: seq<Chunk>, xs: seq<Chunk>, acc: seq<string>)
    requires forall k :: 0 <= k < |ps| ==> IsVideoPass(ps[k])
    requires |xs| == |chs| && forall i :: 0 <= i < |chs| ==> VideoSwap(chs[i], xs[i])
    ensures var r := Passes(ps, YouTube, xs, acc);
      forall i :: 0 <= i < |chs| ==> VideoSwap(chs[i], r.chunks[i])
    decreases |ps|
  {
    if |ps| > 0 {
      var p := ps[0];
      var s := Save(p, YouTube, xs, acc);
      SaveKeepsOrHolds(p, YouTube, xs, acc);
      forall i | 0 <= i < |chs|
        ensures VideoSwap(chs[i], s.chunks[i])
      {
        if Mint(p, xs[i]).Some? {
          VideoMint(p, xs[i]);
        }
      }
      PassesSwapVideos(ps[1..], chs, s.chunks, s.blocks);
    }
  }

  /** A YouTube pass saves a block only for a link whose id is usable. */
  lemma VideoMint(p: Pass, c: Chunk)
    requires IsVideoPass(p)
    ensures Mint(p, c).Some? ==> (c.MdLink? || c.Bare?) && HasId(ExtractId(c.url))
  {
  }

  lemma YouTubeSwapsVideos(chs: seq<Chunk>)
    ensures forall i :: 0 <= i < |chs| ==> VideoSwap(chs[i], YouTubePasses(chs).chunks[i])
  {
    PassesSwapVideos(VideoPasses(), chs, chs, []);
  }

  // ---------------------------------------------------------------------
  // Steps 1-3: fenced blocks survive the YouTube passes

  /** The document as cut into chunks holds no placeholder yet. */
  predicate NoHeld(chs: seq<Chunk>) {
    forall i :: 0 <= i < |chs| ==> !chs[i].Held?
  }

  /** Chunk `x` of the protected document against chunk `y` of the
      unprotected one: the same chunk, which is no TEMPCODE placeholder, or
      the TEMPCODE placeholder whose saved block is `y`'s fence. */
  predicate Protects(x: Chunk, y: Chunk, codes: seq<string>) {
    || (x == y && !(y.Held? && y.kw == TempCode))
    || (y.Fence? && x.Held? && x.kw == TempCode && x.idx < |codes| && codes[x.idx] == y.src)
  }

  predicate AllProtect(xs: seq<Chunk>, ys: seq<Chunk>, codes: seq<string>) {
    |xs| == |ys| && forall i :: 0 <= i < |xs| ==> Protects(xs[i], ys[i], codes)
  }

  /** Step 1 protects every fence. */
  lemma FencesProtect(chs: seq<Chunk>)
    requires NoHeld(chs)
    ensures var s := Save(Fences, TempCode, chs, []);
      AllProtect(s.chunks, chs, s.blocks)
  {
    var ms := Mints(Fences, chs);
    var r := Fold(TempCode, chs, ms, []);
    forall i | 0 <= i < |chs|
      ensures Protects(r.chunks[i], chs[i], r.blocks)
    {
      FoldSpec(TempCode, chs, ms, [], i);
    }
  }

  /** A YouTube pass cannot tell a fence from its placeholder. */
  lemma ProtectsMints(p: Pass, xs: seq<Chunk>, ys: seq<Chunk>, codes: seq<string>)
    requires IsVideoPass(p) && AllProtect(xs, ys, codes)
    ensures Mints(p, xs) == Mints(p, ys)
  {
    forall i | 0 <= i < |xs|
      ensures Mints(p, xs)[i] == Mints(p, ys)[i]
    {
      if xs[i] != ys[i] {
        assert Mint(p, xs[i]).None? && Mint(p, ys[i]).None?;
      }
    }
  }

  /** ... so the YouTube passes save the same embeds on the protected
      chunks as on the chunks with the fences left in place, which no video
      pass looks into, and keep the fences protected. */
  lemma {:induction false} PassesProtect(ps: seq<Pass>, xs: seq<Chunk>, ys: seq<Chunk>, codes: seq<string>, acc: seq<string>)
    requires forall k :: 0 <= k < |ps| ==> IsVideoPass(ps[k])
    requires AllProtect(xs, ys, codes)
    ensures Passes(ps, YouTube, xs, acc).blocks == Passes(ps, YouTube, ys, acc).blocks
    ensures AllProtect(Passes(ps, YouTube, xs, acc).chunks, Passes(ps, YouTube, ys, acc).chunks, codes)
    decreases |ps|
  {
    if |ps| > 0 {
      var p := ps[0];
      ProtectsMints(p, xs, ys, codes);
      SaveAgree(p, YouTube, xs, ys, acc);
      SaveKeepsOrHolds(p, YouTube, ys, acc);
      var sx, sy := Save(p, YouTube, xs, acc), Save(p, YouTube, ys, acc);
      assert AllProtect(sx.chunks, sy.chunks, codes) by {
        forall i | 0 <= i < |xs|
          ensures Protects(sx.chunks[i], sy.chunks[i], codes)
        {
          assert Mint(p, xs[i]) == Mint(p, ys[i]) by {
            assert Mints(p, xs)[i] == Mints(p, ys)[i];
          }
        }
      }
      PassesProtect(ps[1..], sx.chunks, sy.chunks, codes, sx.blocks);
    }
  }

  /** Filling the TEMPCODE placeholders gives back the unprotected pieces. */
  lemma ProtectFill(xs: seq<Chunk>, ys: seq<Chunk>, codes: seq<string>)
    requires AllProtect(xs, ys, codes)
    ensures FillPieces(Pieces(xs), TempCode, codes) == Pieces(ys)
  {
    var f := FillPieces(Pieces(xs), TempCode, codes);
    forall i | 0 <= i < |xs|
      ensures f[i] == Pieces(ys)[i]
    {
      assert f[i] == FillPiece(PieceOf(xs[i]), TempCode, codes);
    }
  }

  /** What a chunk of the input has become after step 1 and any YouTube
      passes: itself, a TEMPCODE placeholder for a fence, or a YOUTUBE
      placeholder. */
  predicate Coarsens(c: Chunk, x: Chunk) {
    || x == c
    || (c.Fence? && x.Held? && x.kw == TempCode)
    || (x.Held? && x.kw == YouTube)
  }

  lemma {:induction false} PassesCoarsen(ps: seq<Pass>, chs: seq<Chunk>, xs: seq<Chunk>, acc: seq<string>)
    requires |xs| == |chs| && forall i :: 0 <= i < |chs| ==> Coarsens(chs[i], xs[i])
    ensures var r := Passes(ps, YouTube, xs, acc);
      forall i :: 0 <= i < |chs| ==> Coarsens(chs[i], r.chunks[i])
    decreases |ps|
  {
    if |ps| > 0 {
      var s := Save(ps[0], YouTube, xs, acc);
      SaveKeepsOrHolds(ps[0], YouTube, xs, acc);
      PassesCoarsen(ps[1..], chs, s.chunks, s.blocks);
    }
  }

  /** For TEMPCODE, each such chunk reads as the input's chunk or coarser. */
  lemma CoarsensCoarser(c: Chunk, x: Chunk)
    requires Coarsens(c, x)
    ensures Coarser(TempCode, AtomOf(TempCode, PieceOf(c)), AtomOf(TempCode, PieceOf(x)))
  {
    if x != c && x.kw == YouTube {
      KeywordsAreKeywords();
      KeywordFacts();
      TokenBlocked(TempCode, YouTube, x.idx);
    }
  }

  /** Steps 1 to 3 of `markdown_to_html`. Fenced blocks are swapped for
      TEMPCODE placeholders, the YouTube passes run, and the blocks are put
      back by literal replacement. Provided TEMPCODE occurs neither in a
      fence nor in the text between fences, the result is the text and the
      embed list the YouTube passes give applied outside the fences, with
      every fence back verbatim in its place. */
  lemma CodeProtection(chs: seq<Chunk>)
    requires NoHeld(chs) && CleanFor(TempCode, Pieces(chs))
    ensures var s := Save(Fences, TempCode, chs, []);
      var y, z := YouTubePasses(s.chunks), YouTubePasses(chs);
      && y.blocks == z.blocks
      && RestoreAll(TextOf(y.chunks), TempCode, s.blocks) == TextOf(z.chunks)
  {
    KeywordsAreKeywords();
    var s := Save(Fences, TempCode, chs, []);
    var y, z := YouTubePasses(s.chunks), YouTubePasses(chs);
    FencesProtect(chs);
    PassesProtect(VideoPasses(), s.chunks, chs, s.blocks, []);
    ProtectFill(y.chunks, z.chunks, s.blocks);
    assert CleanFor(TempCode, Pieces(y.chunks)) by {
      StepOneCoarsens(chs);
      PassesCoarsen(VideoPasses(), chs, s.chunks, []);
      var a, b := Atoms(TempCode, Pieces(chs)), Atoms(TempCode, Pieces(y.chunks));
      forall i | 0 <= i < |chs|
        ensures Coarser(TempCode, a[i], b[i])
      {
        CoarsensCoarser(chs[i], y.chunks[i]);
      }
      CleanCoarser(TempCode, "", a, b);
    }
    assert AllBlocked(TempCode, s.blocks) by {
      FencesBlocked(chs);
    }
    RestorePieces(TempCode, Pieces(y.chunks), s.blocks);
  }

  lemma StepOneCoarsens(chs: seq<Chunk>)
    ensures var s := Save(Fences, TempCode, chs, []);
      forall i :: 0 <= i < |chs| ==> Coarsens(chs[i], s.chunks[i])
  {
    SaveKeepsOrHolds(Fences, TempCode, chs, []);
  }

  /** The fences of clean text are blocked for TEMPCODE. */
  lemma FencesBlocked(chs: seq<Chunk>)
    requires CleanFor(TempCode, Pieces(chs))
    ensures AllBlocked(TempCode, Save(Fences, TempCode, chs, []).blocks)
  {
    var ms := Mints(Fences, chs);
    forall i | 0 <= i < |ms| && ms[i].Some?
      ensures Blocked(TempCode, ms[i].value)
    {
      CleanSealed(TempCode, "", Atoms(TempCode, Pieces(chs)), i);
    }
    FoldBlocked(TempCode, chs, ms, [], TempCode);
  }

  // ---------------------------------------------------------------------
  // What the callbacks save

  /** Where one pass puts chunk `i`, in terms of the callback. */
  lemma SavePlaces(p: Pass, kw: string, chs: seq<Chunk>, acc: seq<string>, i: nat)
    requires i < |chs|
    ensures var r := Save(p, kw, chs, acc);
      var n := |acc| + Count(Mints(p, chs[..i]));
      && (Mint(p, chs[i]).None? ==> r.chunks[i] == chs[i])
      && (Mint(p, chs[i]).Some? ==> n < |r.blocks| && r.chunks[i] == Held(kw, n) && r.blocks[n] == Mint(p, chs[i]).value)
  {
    FoldSpec(kw, chs, Mints(p, chs), acc, i);
    MintsPrefix(p, chs, i);
  }

  lemma MintsPrefix(p: Pass, chs: seq<Chunk>, i: nat)
    requires i <= |chs|
    ensures Mints(p, chs)[..i] == Mints(p, chs[..i])
  {
    var a, b := Mints(p, chs)[..i], Mints(p, chs[..i]);
    forall k | 0 <= k < i
      ensures a[k] == b[k]
    {
      assert chs[..i][k] == chs[k];
    }
  }

  /** The markdown-link callback on the three link forms: the embed of the
      link's video, titled with the link text; `youtu.be/` with no id keeps
      the link. */
  lemma LinkMint(linkText: string, raw: string, id: string, more: seq<(string, string)>)
    ensures id != "" ==> Mint(Links, MdLink(linkText, raw, WatchLink(id, more))) == Some(EmbedHtml(id, linkText))
    ensures id != "" ==> Mint(Links, MdLink(linkText, raw, ShortLink(id))) == Some(EmbedHtml(id, linkText))
    ensures id != "" && '/' !in id ==> Mint(Links, MdLink(linkText, raw, EmbedLink(id))) == Some(EmbedHtml(id, linkText))
    ensures Mint(Links, MdLink(linkText, raw, ShortLink(""))) == None
  {
    LinkForms(id, more);
  }

  /** The bare-URL callbacks, each on the link form of its own pattern: the
      embed of the video, titled "YouTube video player". */
  lemma BareMint(raw: string, id: string, more: seq<(string, string)>)
    ensures id != "" ==> Mint(Bares(WatchShape), Bare(WatchShape, raw, WatchLink(id, more))) == Some(EmbedHtml(id, VideoPlayerTitle))
    ensures id != "" ==> Mint(Bares(ShortShape), Bare(ShortShape, raw, ShortLink(id))) == Some(EmbedHtml(id, VideoPlayerTitle))
    ensures id != "" && '/' !in id ==> Mint(Bares(EmbedShape), Bare(EmbedShape, raw, EmbedLink(id))) == Some(EmbedHtml(id, VideoPlayerTitle))
  {
    LinkForms(id, more);
  }

  lemma LinkForms(id: string, more: seq<(string, string)>)
    ensures id != "" ==> ExtractId(WatchLink(id, more)) == Some(id)
    ensures ExtractId(ShortLink(id)) == Some(id)
    ensures '/' !in id ==> ExtractId(EmbedLink(id)) == Some(id)
  {
    ShortLinkId(id);
    if id != "" {
      WatchLinkId(id, more);
    }
    if '/' !in id {
      EmbedLinkId(id);
    }
  }

  /** A bare URL is left to the pass for its own shape. */
  lemma BareOtherShape(p: Shape, shape: Shape, raw: string, u: Url)
    requires p != shape
    ensures Mint(Bares(p), Bare(shape, raw, u)) == None
  {
  }

  // ---------------------------------------------------------------------
  // CODEBLOCK: fenced blocks with a language line

  /** The document with every fenced block with a language line as the
      highlighter renders it. */
  function Highlighted(highlight: (Option<string>, string) -> string, chs: seq<Chunk>): (r: seq<Piece>)
    ensures |r| == |chs|
  {
    seq(|chs|, i requires 0 <= i < |chs| =>
      if chs[i].Code? then Block(highlight(chs[i].lang, chs[i].body)) else PieceOf(chs[i]))
  }

  /** Saving the highlighted fenced blocks under CODEBLOCK placeholders and
      restoring them by literal replacement yields the highlighted
      document, provided CODEBLOCK occurs neither in the document nor in
      what the highlighter returns, and the highlighter's output neither
      starts nor ends with a capital letter. */
  lemma CodeBlockRoundTrip(highlight: (Option<string>, string) -> string, chs: seq<Chunk>)
    requires NoHeld(chs) && CleanFor(CodeBlock, Pieces(chs))
    requires forall i :: 0 <= i < |chs| && chs[i].Code? ==> Blocked(CodeBlock, highlight(chs[i].lang, chs[i].body))
    ensures var s := Save(Codes(highlight), CodeBlock, chs, []);
      RestoreAll(TextOf(s.chunks), CodeBlock, s.blocks) == Render(Highlighted(highlight, chs))
  {
    KeywordsAreKeywords();
    var s := Save(Codes(highlight), CodeBlock, chs, []);
    CodesFill(highlight, chs);
    CodesClean(highlight, chs);
    CodesBlocked(highlight, chs);
    RestorePieces(CodeBlock, Pieces(s.chunks), s.blocks);
  }

  lemma CodesFill(highlight: (Option<string>, string) -> string, chs: seq<Chunk>)
    requires NoHeld(chs)
    ensures var s := Save(Codes(highlight), CodeBlock, chs, []);
      FillPieces(Pieces(s.chunks), CodeBlock, s.blocks) == Highlighted(highlight, chs)
  {
    var ms := Mints(Codes(highlight), chs);
    var s := Fold(CodeBlock, chs, ms, []);
    forall i | 0 <= i < |chs|
      ensures FillPieces(Pieces(s.chunks), CodeBlock, s.blocks)[i] == Highlighted(highlight, chs)[i]
    {
      FoldSpec(CodeBlock, chs, ms, [], i);
      var c := chs[i];
      var want := if c.Code? then Block(highlight(c.lang, c.body)) else PieceOf(c);
      assert Highlighted(highlight, chs)[i] == want;
      assert FillPieces(Pieces(s.chunks), CodeBlock, s.blocks)[i] == FillPiece(PieceOf(s.chunks[i]), CodeBlock, s.blocks);
      CodesMint(highlight, c);
    }
  }

  /** The CODEBLOCK callback: the highlighted block, for a fenced block
      with a language line. */
  lemma CodesMint(highlight: (Option<string>, string) -> string, c: Chunk)
    ensures Mint(Codes(highlight), c) == if c.Code? then Some(highlight(c.lang, c.body)) else None
  {
  }

  lemma CodesClean(highlight: (Option<string>, string) -> string, chs: seq<Chunk>)
    requires CleanFor(CodeBlock, Pieces(chs))
    ensures CleanFor(CodeBlock, Pieces(Save(Codes(highlight), CodeBlock, chs, []).chunks))
  {
    var ms := Mints(Codes(highlight), chs);
    var s := Fold(CodeBlock, chs, ms, []);
    var a, b := Atoms(CodeBlock, Pieces(chs)), Atoms(CodeBlock, Pieces(s.chunks));
    forall i | 0 <= i < |chs|
      ensures Coarser(CodeBlock, a[i], b[i])
    {
      FoldSpec(CodeBlock, chs, ms, [], i);
    }
    CleanCoarser(CodeBlock, "", a, b);
  }

  lemma CodesBlocked(highlight: (Option<string>, string) -> string, chs: seq<Chunk>)
    requires forall i :: 0 <= i < |chs| && chs[i].Code? ==> Blocked(CodeBlock, highlight(chs[i].lang, chs[i].body))
    ensures AllBlocked(CodeBlock, Save(Codes(highlight), CodeBlock, chs, []).blocks)
  {
    var ms := Mints(Codes(highlight), chs);
    FoldBlocked(CodeBlock, chs, ms, [], CodeBlock);
  }

  // ---------------------------------------------------------------------
  // Steps 7-8: restoring CODEBLOCK, then YOUTUBE, in the rendered HTML

  /** The HTML is taken as pieces: what the renderer made of the text, with
      the CODEBLOCK and YOUTUBE placeholders passed through. Restoring the
      code blocks and then the embeds puts each block into its own
      placeholder's place, provided the two keywords occur in the HTML only
      in placeholders and neither occurs in a saved block. */
  lemma RestoreHtml(ps: seq<Piece>, codes: seq<string>, embeds: seq<string>)
    requires CleanFor(CodeBlock, ps) && CleanFor(YouTube, ps)
    requires AllBlocked(CodeBlock, codes) && AllBlocked(YouTube, codes) && AllBlocked(YouTube, embeds)
    ensures RestoreAll(RestoreAll(Render(ps), CodeBlock, codes), YouTube, embeds)
      == Render(FillPieces(FillPieces(ps, CodeBlock, codes), YouTube, embeds))
  {
    KeywordsAreKeywords();
    RestorePieces(CodeBlock, ps, codes);
    var q := FillPieces(ps, CodeBlock, codes);
    CleanAfterFill(YouTube, ps, CodeBlock, codes);
    RestorePieces(YouTube, q, embeds);
  }

  /** When every YOUTUBE placeholder in the HTML has an embed, none is
      left after step 8. */
  lemma RestoreHtmlComplete(ps: seq<Piece>, codes: seq<string>, embeds: seq<string>)
    requires CleanFor(CodeBlock, ps) && CleanFor(YouTube, ps)
    requires AllBlocked(CodeBlock, codes) && AllBlocked(YouTube, codes) && AllBlocked(YouTube, embeds)
    requires SlotsBelow(ps, YouTube, |embeds|)
    ensures !Contains(RestoreAll(RestoreAll(Render(ps), CodeBlock, codes), YouTube, embeds), YouTube)
  {
    KeywordsAreKeywords();
    RestorePieces(CodeBlock, ps, codes);
    var q := FillPieces(ps, CodeBlock, codes);
    CleanAfterFill(YouTube, ps, CodeBlock, codes);
    SlotsAfterFill(ps, YouTube, |embeds|, CodeBlock, codes);
    RestorePiecesComplete(YouTube, q, embeds);
  }
}
