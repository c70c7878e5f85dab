/** Restoring placeholders by literal replacement, the way every converter
    does it: `for idx, block in enumerate(blocks): text = text.replace(
    f'%%%{KW}{idx}%%%', block)`.

    The text being restored is viewed, for one keyword, as a sequence of
    atoms: free text, a placeholder of that keyword, or a sealed part (an
    already restored block, or another keyword's placeholder). `Clean` is the
    condition under which the keyword occurs only inside the placeholders;
    under it, each `replace` swaps exactly the placeholders of its index and
    the whole loop puts every block back where its placeholder was. */
module Restore {
  import opened Text
  import opened Tokens

  datatype Atom = Plain(text: string) | Tok(idx: nat) | Sealed(text: string)

  function Show(kw: string, a: Atom): string {
    match a
    case Plain(s) => s
    case Tok(i) => Token(kw, i)
    case Sealed(s) => s
  }

  function ShowAll(kw: string, atoms: seq<Atom>): string
    decreases |atoms|
  {
    if |atoms| == 0 then "" else Show(kw, atoms[0]) + ShowAll(kw, atoms[1..])
  }

  /** A sealed part cannot take part in an occurrence of the keyword: it is
      non-empty, its end characters are not in the keyword, and it does not
      contain the keyword. */
  predicate Blocked(kw: string, b: string) {
    && |b| > 0
    && b[0] !in kw
    && b[|b| - 1] !in kw
    && !Contains(b, kw)
  }

  /** No maximal run of free text contains the keyword (`carry` is the part
      of the current run already passed), and every sealed part is blocked. */
  predicate Clean(kw: string, carry: string, atoms: seq<Atom>)
    decreases |atoms|
  {
    if |atoms| == 0 then !Contains(carry, kw)
    else match atoms[0]
      case Plain(s) => Clean(kw, carry + s, atoms[1..])
      case Tok(_) => !Contains(carry, kw) && Clean(kw, "", atoms[1..])
      case Sealed(b) => !Contains(carry, kw) && Blocked(kw, b) && Clean(kw, "", atoms[1..])
  }

  lemma {:induction false} CleanCarry(kw: string, carry: string, atoms: seq<Atom>)
    requires Clean(kw, carry, atoms)
    ensures !Contains(carry, kw)
    decreases |atoms|
  {
    if |atoms| > 0 && atoms[0].Plain? {
      var s := atoms[0].text;
      CleanCarry(kw, carry + s, atoms[1..]);
      ContainsAppend(carry, s, kw);
    }
  }

  lemma {:induction false} CleanSuffix(kw: string, a: string, b: string, atoms: seq<Atom>)
    requires Clean(kw, a + b, atoms)
    ensures Clean(kw, b, atoms)
    decreases |atoms|
  {
    if |atoms| == 0 {
      ContainsAppend(a, b, kw);
    } else if atoms[0].Plain? {
      var s := atoms[0].text;
      assert a + b + s == a + (b + s);
      CleanSuffix(kw, a, b + s, atoms[1..]);
    } else {
      ContainsAppend(a, b, kw);
    }
  }

  /** Every sealed part of clean text is blocked. */
  lemma {:induction false} CleanSealed(kw: string, carry: string, atoms: seq<Atom>, i: nat)
    requires Clean(kw, carry, atoms) && i < |atoms| && atoms[i].Sealed?
    ensures Blocked(kw, atoms[i].text)
    decreases i
  {
    if i > 0 {
      assert atoms[1..][i - 1] == atoms[i];
      match atoms[0]
      case Plain(s) => CleanSealed(kw, carry + s, atoms[1..], i - 1);
      case Tok(_) => CleanSealed(kw, "", atoms[1..], i - 1);
      case Sealed(_) => CleanSealed(kw, "", atoms[1..], i - 1);
    }
  }

  /** Where the keyword can occur in clean text: only three characters into
      a placeholder. Relative to the first atom, an occurrence is either that
      placeholder's own or starts at least three characters past the atom. */
  lemma {:induction false} KeywordPositions(kw: string, carry: string, atoms: seq<Atom>, q: int)
    requires IsKeyword(kw) && Clean(kw, carry, atoms)
    ensures OccursAt(carry + ShowAll(kw, atoms), q, kw) ==>
      && |atoms| > 0
      && ((atoms[0].Tok? && q == |carry| + 3) || q >= |carry| + |Show(kw, atoms[0])| + 3)
    decreases |atoms|
  {
    var c := carry;
    if |atoms| == 0 {
      assert c + ShowAll(kw, atoms) == c;
      ContainsOfOccurs(c, q, kw);
    } else {
      var a, rest := atoms[0], atoms[1..];
      var m, r := Show(kw, a), ShowAll(kw, rest);
      if a.Plain? {
        assert c + ShowAll(kw, atoms) == (c + m) + r;
        KeywordPositions(kw, c + m, rest, q);
      } else {
        assert c + ShowAll(kw, atoms) == c + (m + r);
        assert "" + r == r;
        KeywordPositions(kw, "", rest, q - |c| - |m|);
        SealedOccurrence(kw, c, a, r, q);
      }
    }
  }

  /** The step of `KeywordPositions` past a placeholder or a sealed part,
      given where the keyword can occur in the text after it. */
  lemma SealedOccurrence(kw: string, c: string, a: Atom, r: string, q: int)
    requires IsKeyword(kw) && !a.Plain? && !Contains(c, kw)
    requires a.Sealed? ==> Blocked(kw, a.text)
    requires OccursAt(r, q - |c| - |Show(kw, a)|, kw) ==> q - |c| - |Show(kw, a)| >= 3
    ensures OccursAt(c + (Show(kw, a) + r), q, kw) ==>
      (a.Tok? && q == |c| + 3) || q >= |c| + |Show(kw, a)| + 3
  {
    var m := Show(kw, a);
    PercentNotInKeyword(kw);
    assert |m| > 0 && m[0] !in kw && m[|m| - 1] !in kw;
    AtomOccurrence(kw, c, m, r, q);
    ContainsOfOccurs(m, q - |c|, kw);
    if a.Tok? && OccursAt(m, q - |c|, kw) {
      KeywordInOwnToken(kw, a.idx, q - |c|);
    }
  }

  /** An occurrence in `c + m + r`, where `c` lacks the keyword and the end
      characters of `m` are not in it, lies inside `m` or inside `r`. */
  lemma AtomOccurrence(kw: string, c: string, m: string, r: string, q: int)
    requires !Contains(c, kw) && |m| > 0 && m[0] !in kw && m[|m| - 1] !in kw
    ensures OccursAt(c + (m + r), q, kw) ==>
      OccursAt(m, q - |c|, kw) || OccursAt(r, q - |c| - |m|, kw)
  {
    OccursAppend(c, m + r, q, kw);
    ContainsOfOccurs(c, q, kw);
    OccursAppend(m, r, q - |c|, kw);
  }

  /** In clean text, no placeholder of index `j` starts inside a first atom
      that is not that placeholder. */
  lemma NoTokenStart(kw: string, carry: string, atoms: seq<Atom>, j: nat, q: int)
    requires IsKeyword(kw) && Clean(kw, carry, atoms)
    requires |atoms| > 0 && atoms[0] != Tok(j) && 0 <= q < |Show(kw, atoms[0])|
    ensures !OccursAt(ShowAll(kw, atoms), q, Token(kw, j))
  {
    var s := ShowAll(kw, atoms);
    var t := Token(kw, j);
    assert OccursAt(s, q, t) ==> atoms[0].Tok? && q == 0 by {
      InnerKeyword(s, q, kw, j);
      OccursShift(carry, s, q + 3, kw);
      KeywordPositions(kw, carry, atoms, |carry| + q + 3);
    }
    if atoms[0].Tok? {
      var r := ShowAll(kw, atoms[1..]);
      assert OccursAt(s, 0, t) ==> StartsWith(Token(kw, atoms[0].idx) + r, t) by {
        assert s == Token(kw, atoms[0].idx) + r;
      }
      TokenPrefix(kw, atoms[0].idx, j, r);
    }
  }

  function SwapAtom(a: Atom, j: nat, block: string): Atom {
    if a == Tok(j) then Sealed(block) else a
  }

  /** The atoms with placeholder `j` restored to `block`. */
  function Swap(atoms: seq<Atom>, j: nat, block: string): (r: seq<Atom>)
    ensures |r| == |atoms|
    decreases |atoms|
  {
    if |atoms| == 0 then [] else [SwapAtom(atoms[0], j, block)] + Swap(atoms[1..], j, block)
  }

  /** One `text.replace(token_j, block)` on clean text swaps exactly the
      placeholders of index `j`, however many there are, and nothing else. */
  lemma {:induction false} ReplaceOne(kw: string, carry: string, atoms: seq<Atom>, j: nat, block: string)
    requires IsKeyword(kw) && Clean(kw, carry, atoms)
    ensures Replace(ShowAll(kw, atoms), Token(kw, j), block) == ShowAll(kw, Swap(atoms, j, block))
    decreases |atoms|
  {
    if |atoms| > 0 {
      var a, rest := atoms[0], atoms[1..];
      var m, r := Show(kw, a), ShowAll(kw, rest);
      var pat := Token(kw, j);
      var c' := if a.Plain? then carry + a.text else "";
      assert Clean(kw, c', rest);
      ReplaceOne(kw, c', rest, j, block);
      assert ShowAll(kw, Swap(atoms, j, block)) == Show(kw, SwapAtom(a, j, block)) + ShowAll(kw, Swap(rest, j, block));
      if a == Tok(j) {
        ReplaceAtStart(pat, r, block);
      } else {
        forall q | 0 <= q < |m|
          ensures !OccursAt(m + r, q, pat)
        {
          NoTokenStart(kw, carry, atoms, j, q);
        }
        ReplaceSkip(m + r, |m|, pat, block);
        assert (m + r)[..|m|] == m && (m + r)[|m|..] == r;
      }
    }
  }

  /** Replacing atoms by coarser ones keeps text clean: an atom may stay,
      become a blocked sealed part, or a sealed part may become a placeholder. */
  predicate Coarser(kw: string, a: Atom, b: Atom) {
    a == b || (b.Sealed? && Blocked(kw, b.text)) || (a.Sealed? && b.Tok?)
  }

  predicate AllCoarser(kw: string, atoms: seq<Atom>, atoms': seq<Atom>) {
    |atoms| == |atoms'| && forall i :: 0 <= i < |atoms| ==> Coarser(kw, atoms[i], atoms'[i])
  }

  lemma {:induction false} CleanCoarser(kw: string, carry: string, atoms: seq<Atom>, atoms': seq<Atom>)
    requires Clean(kw, carry, atoms) && AllCoarser(kw, atoms, atoms')
    ensures Clean(kw, carry, atoms')
    decreases |atoms|
  {
    if |atoms| > 0 {
      var a, b := atoms[0], atoms'[0];
      assert Coarser(kw, a, b);
      assert AllCoarser(kw, atoms[1..], atoms'[1..]);
      CleanCarry(kw, carry, atoms);
      match a
      case Plain(s) =>
        if b == a {
          CleanCoarser(kw, carry + s, atoms[1..], atoms'[1..]);
        } else {
          CleanCarry(kw, carry + s, atoms[1..]);
          ContainsAppend(carry, s, kw);
          assert carry + s == (carry + s) + "";
          CleanSuffix(kw, carry + s, "", atoms[1..]);
          CleanCoarser(kw, "", atoms[1..], atoms'[1..]);
        }
      case Tok(_) =>
        CleanCoarser(kw, "", atoms[1..], atoms'[1..]);
      case Sealed(_) =>
        CleanCoarser(kw, "", atoms[1..], atoms'[1..]);
    }
  }

  lemma SwapCoarser(kw: string, atoms: seq<Atom>, j: nat, block: string)
    requires Blocked(kw, block)
    ensures AllCoarser(kw, atoms, Swap(atoms, j, block))
    decreases |atoms|
  {
    if |atoms| > 0 {
      SwapCoarser(kw, atoms[1..], j, block);
      var r := Swap(atoms, j, block);
      assert r[1..] == Swap(atoms[1..], j, block);
      forall i | 0 <= i < |atoms|
        ensures Coarser(kw, atoms[i], r[i])
      {
        if i > 0 {
          assert atoms[i] == atoms[1..][i - 1] && r[i] == r[1..][i - 1];
        }
      }
    }
  }

  /** The restoration loop after `n` iterations. */
  function RestoreUpTo(text: string, kw: string, blocks: seq<string>, n: nat): string
    requires n <= |blocks|
    decreases n
  {
    if n == 0 then text
    else Replace(RestoreUpTo(text, kw, blocks, n - 1), Token(kw, n - 1), blocks[n - 1])
  }

  /** `for idx, block in enumerate(blocks): text = text.replace(f'%%%{kw}{idx}%%%', block)`. */
  function RestoreAll(text: string, kw: string, blocks: seq<string>): string {
    RestoreUpTo(text, kw, blocks, |blocks|)
  }

  function FillAtom(a: Atom, blocks: seq<string>, n: nat): Atom
    requires n <= |blocks|
  {
    if a.Tok? && a.idx < n then Sealed(blocks[a.idx]) else a
  }

  /** The atoms with placeholders `0 .. n-1` replaced by their blocks. */
  function Fill(atoms: seq<Atom>, blocks: seq<string>, n: nat): (r: seq<Atom>)
    requires n <= |blocks|
    ensures |r| == |atoms|
    decreases |atoms|
  {
    if |atoms| == 0 then [] else [FillAtom(atoms[0], blocks, n)] + Fill(atoms[1..], blocks, n)
  }

  lemma {:induction false} FillStep(atoms: seq<Atom>, blocks: seq<string>, n: nat)
    requires n < |blocks|
    ensures Fill(atoms, blocks, n + 1) == Swap(Fill(atoms, blocks, n), n, blocks[n])
    decreases |atoms|
  {
    if |atoms| > 0 {
      FillStep(atoms[1..], blocks, n);
      var f := Fill(atoms, blocks, n);
      assert f[0] == FillAtom(atoms[0], blocks, n) && f[1..] == Fill(atoms[1..], blocks, n);
    }
  }

  lemma {:induction false} FillNone(atoms: seq<Atom>, blocks: seq<string>)
    ensures Fill(atoms, blocks, 0) == atoms
    decreases |atoms|
  {
    if |atoms| > 0 {
      FillNone(atoms[1..], blocks);
    }
  }

  /** Filling placeholders with blocked parts keeps text clean. */
  lemma FillClean(kw: string, atoms: seq<Atom>, blocks: seq<string>, n: nat)
    requires Clean(kw, "", atoms) && n <= |blocks|
    requires forall i :: 0 <= i < |blocks| ==> Blocked(kw, blocks[i])
    ensures Clean(kw, "", Fill(atoms, blocks, n))
  {
    var f := Fill(atoms, blocks, n);
    FillPointwise(atoms, blocks, n);
    assert AllCoarser(kw, atoms, f);
    CleanCoarser(kw, "", atoms, f);
  }

  lemma {:induction false} FillPointwise(atoms: seq<Atom>, blocks: seq<string>, n: nat)
    requires n <= |blocks|
    ensures forall i :: 0 <= i < |atoms| ==> Fill(atoms, blocks, n)[i] == FillAtom(atoms[i], blocks, n)
    decreases |atoms|
  {
    if |atoms| > 0 {
      FillPointwise(atoms[1..], blocks, n);
      var f := Fill(atoms, blocks, n);
      assert f[1..] == Fill(atoms[1..], blocks, n);
      forall i | 0 < i < |atoms|
        ensures f[i] == FillAtom(atoms[i], blocks, n)
      {
        assert f[i] == f[1..][i - 1] && atoms[i] == atoms[1..][i - 1];
      }
    }
  }

  /** The restoration loop puts every block back where its placeholder was:
      after `n` iterations the text is exactly the clean text with
      placeholders `0 .. n-1` filled in. */
  lemma {:induction false} RestoreUpToFills(kw: string, atoms: seq<Atom>, blocks: seq<string>, n: nat)
    requires IsKeyword(kw) && Clean(kw, "", atoms) && n <= |blocks|
    requires forall i :: 0 <= i < |blocks| ==> Blocked(kw, blocks[i])
    ensures RestoreUpTo(ShowAll(kw, atoms), kw, blocks, n) == ShowAll(kw, Fill(atoms, blocks, n))
    decreases n
  {
    if n == 0 {
      FillNone(atoms, blocks);
    } else {
      RestoreUpToFills(kw, atoms, blocks, n - 1);
      RestoreStep(kw, atoms, blocks, n - 1);
    }
  }

  /** One iteration of the loop fills one more placeholder. */
  lemma RestoreStep(kw: string, atoms: seq<Atom>, blocks: seq<string>, n: nat)
    requires IsKeyword(kw) && Clean(kw, "", atoms) && n < |blocks|
    requires forall i :: 0 <= i < |blocks| ==> Blocked(kw, blocks[i])
    requires RestoreUpTo(ShowAll(kw, atoms), kw, blocks, n) == ShowAll(kw, Fill(atoms, blocks, n))
    ensures RestoreUpTo(ShowAll(kw, atoms), kw, blocks, n + 1) == ShowAll(kw, Fill(atoms, blocks, n + 1))
  {
    var f := Fill(atoms, blocks, n);
    assert Replace(ShowAll(kw, f), Token(kw, n), blocks[n]) == ShowAll(kw, Swap(f, n, blocks[n])) by {
      FillClean(kw, atoms, blocks, n);
      ReplaceOne(kw, "", f, n, blocks[n]);
    }
    FillStep(atoms, blocks, n);
  }

  /** Every placeholder has a block. */
  predicate TokensBelow(atoms: seq<Atom>, n: nat) {
    forall i :: 0 <= i < |atoms| ==> atoms[i].Tok? ==> atoms[i].idx < n
  }

  predicate NoTokens(atoms: seq<Atom>) {
    forall i :: 0 <= i < |atoms| ==> !atoms[i].Tok?
  }

  lemma {:induction false} FillAllNoTokens(atoms: seq<Atom>, blocks: seq<string>)
    requires TokensBelow(atoms, |blocks|)
    ensures NoTokens(Fill(atoms, blocks, |blocks|))
    decreases |atoms|
  {
    if |atoms| > 0 {
      FillAllNoTokens(atoms[1..], blocks);
      var f := Fill(atoms, blocks, |blocks|);
      assert f[1..] == Fill(atoms[1..], blocks, |blocks|);
      forall i | 0 <= i < |f|
        ensures !f[i].Tok?
      {
        if i > 0 {
          assert f[i] == f[1..][i - 1];
        }
      }
    }
  }

  /** Clean text without placeholders does not contain the keyword at all. */
  lemma {:induction false} NoKeywordWithoutTokens(kw: string, carry: string, atoms: seq<Atom>, q: int)
    requires IsKeyword(kw) && Clean(kw, carry, atoms) && NoTokens(atoms)
    ensures !OccursAt(carry + ShowAll(kw, atoms), q, kw)
    decreases |atoms|
  {
    if |atoms| == 0 {
      assert carry + ShowAll(kw, atoms) == carry;
      ContainsOfOccurs(carry, q, kw);
    } else {
      var a, rest := atoms[0], atoms[1..];
      var m, r := Show(kw, a), ShowAll(kw, rest);
      assert !a.Tok?;
      assert NoTokens(rest);
      assert carry + ShowAll(kw, atoms) == (carry + m) + r;
      if a.Plain? {
        NoKeywordWithoutTokens(kw, carry + m, rest, q);
      } else {
        assert !OccursAt(r, q - |carry| - |m|, kw) by {
          assert "" + r == r;
          NoKeywordWithoutTokens(kw, "", rest, q - |carry| - |m|);
        }
        SealedNoKeyword(kw, carry, m, r, q);
      }
    }
  }

  /** A blocked part cannot start, end or hold an occurrence of the keyword. */
  lemma SealedNoKeyword(kw: string, c: string, m: string, r: string, q: int)
    requires !Contains(c, kw) && Blocked(kw, m) && !OccursAt(r, q - |c| - |m|, kw)
    ensures !OccursAt(c + (m + r), q, kw)
  {
    AtomOccurrence(kw, c, m, r, q);
    ContainsOfOccurs(m, q - |c|, kw);
  }

  /** When every placeholder has a block, restoring clean text leaves no
      trace of the keyword. */
  lemma RestoreLeavesNoKeyword(kw: string, atoms: seq<Atom>, blocks: seq<string>)
    requires IsKeyword(kw) && Clean(kw, "", atoms) && TokensBelow(atoms, |blocks|)
    requires forall i :: 0 <= i < |blocks| ==> Blocked(kw, blocks[i])
    ensures !Contains(RestoreAll(ShowAll(kw, atoms), kw, blocks), kw)
  {
    RestoreUpToFills(kw, atoms, blocks, |blocks|);
    FillClean(kw, atoms, blocks, |blocks|);
    var f := Fill(atoms, blocks, |blocks|);
    FillAllNoTokens(atoms, blocks);
    var s := ShowAll(kw, f);
    assert "" + s == s;
    forall q | 0 <= q <= |s| - |kw|
      ensures !OccursAt(s, q, kw)
    {
      NoKeywordWithoutTokens(kw, "", f, q);
    }
  }

  /** A text without the keyword contains none of its placeholders, so the
      restoration loop leaves it alone. */
  lemma {:induction false} RestoreWithoutKeyword(text: string, kw: string, blocks: seq<string>, n: nat)
    requires !Contains(text, kw) && n <= |blocks|
    ensures RestoreUpTo(text, kw, blocks, n) == text
    decreases n
  {
    if n > 0 {
      assert RestoreUpTo(text, kw, blocks, n - 1) == text by {
        RestoreWithoutKeyword(text, kw, blocks, n - 1);
      }
      assert Replace(text, Token(kw, n - 1), blocks[n - 1]) == text by {
        TokenAbsent(text, kw, n - 1);
        ReplaceAbsent(text, Token(kw, n - 1), blocks[n - 1]);
      }
    }
  }

  /** A text without the keyword contains none of its placeholders. */
  lemma TokenAbsent(text: string, kw: string, j: nat)
    requires !Contains(text, kw)
    ensures !Contains(text, Token(kw, j))
  {
    var t := Token(kw, j);
    forall q | 0 <= q <= |text| - |t|
      ensures !OccursAt(text, q, t)
    {
      InnerKeyword(text, q, kw, j);
      ContainsOfOccurs(text, q + 3, kw);
    }
  }

  /** Restoring is idempotent: a second pass over restored clean text
      changes nothing. */
  lemma RestoreIdempotent(kw: string, atoms: seq<Atom>, blocks: seq<string>)
    requires IsKeyword(kw) && Clean(kw, "", atoms) && TokensBelow(atoms, |blocks|)
    requires forall i :: 0 <= i < |blocks| ==> Blocked(kw, blocks[i])
    ensures var once := RestoreAll(ShowAll(kw, atoms), kw, blocks);
      RestoreAll(once, kw, blocks) == once
  {
    RestoreLeavesNoKeyword(kw, atoms, blocks);
    RestoreWithoutKeyword(RestoreAll(ShowAll(kw, atoms), kw, blocks), kw, blocks, |blocks|);
  }

  // ---------------------------------------------------------------------
  // Texts with placeholders of several keywords

  /** A piece of a text in which placeholders of several keywords may sit:
      ordinary text, a placeholder, or an opaque block already put back. */
  datatype Piece = Lit(text: string) | Slot(kw: string, idx: nat) | Block(text: string)

  function PieceText(p: Piece): string {
    match p
    case Lit(s) => s
    case Slot(kw, i) => Token(kw, i)
    case Block(s) => s
  }

  function Render(ps: seq<Piece>): string
    decreases |ps|
  {
    if |ps| == 0 then "" else PieceText(ps[0]) + Render(ps[1..])
  }

  lemma {:induction false} RenderAppend(a: seq<Piece>, b: seq<Piece>)
    ensures Render(a + b) == Render(a) + Render(b)
    decreases |a|
  {
    if |a| == 0 {
      assert a + b == b;
    } else {
      assert (a + b)[0] == a[0] && (a + b)[1..] == a[1..] + b;
      RenderAppend(a[1..], b);
    }
  }

  /** How one keyword's restoration sees a piece. */
  function AtomOf(kw: string, p: Piece): Atom {
    match p
    case Lit(s) => Plain(s)
    case Slot(k, i) => if k == kw then Tok(i) else Sealed(Token(k, i))
    case Block(s) => Sealed(s)
  }

  function Atoms(kw: string, ps: seq<Piece>): (r: seq<Atom>)
    ensures |r| == |ps|
    ensures forall i :: 0 <= i < |ps| ==> r[i] == AtomOf(kw, ps[i])
    decreases |ps|
  {
    if |ps| == 0 then [] else [AtomOf(kw, ps[0])] + Atoms(kw, ps[1..])
  }

  lemma {:induction false} ShowAtoms(kw: string, ps: seq<Piece>)
    ensures ShowAll(kw, Atoms(kw, ps)) == Render(ps)
    decreases |ps|
  {
    if |ps| > 0 {
      ShowAtoms(kw, ps[1..]);
      assert Atoms(kw, ps)[1..] == Atoms(kw, ps[1..]);
    }
  }

  /** The condition for restoring keyword `kw` in a text of pieces. */
  predicate CleanFor(kw: string, ps: seq<Piece>) {
    Clean(kw, "", Atoms(kw, ps))
  }

  predicate AllBlocked(kw: string, blocks: seq<string>) {
    forall i :: 0 <= i < |blocks| ==> Blocked(kw, blocks[i])
  }

  function FillPiece(p: Piece, kw: string, blocks: seq<string>): Piece {
    if p.Slot? && p.kw == kw && p.idx < |blocks| then Block(blocks[p.idx]) else p
  }

  /** The pieces with every placeholder of `kw` that has a block filled in. */
  function FillPieces(ps: seq<Piece>, kw: string, blocks: seq<string>): (r: seq<Piece>)
    ensures |r| == |ps|
    ensures forall i :: 0 <= i < |ps| ==> r[i] == FillPiece(ps[i], kw, blocks)
    decreases |ps|
  {
    if |ps| == 0 then [] else [FillPiece(ps[0], kw, blocks)] + FillPieces(ps[1..], kw, blocks)
  }

  lemma {:induction false} AtomsFill(kw: string, ps: seq<Piece>, blocks: seq<string>)
    ensures Atoms(kw, FillPieces(ps, kw, blocks)) == Fill(Atoms(kw, ps), blocks, |blocks|)
    decreases |ps|
  {
    if |ps| > 0 {
      AtomsFill(kw, ps[1..], blocks);
      assert FillPieces(ps, kw, blocks)[1..] == FillPieces(ps[1..], kw, blocks);
      assert Atoms(kw, FillPieces(ps, kw, blocks))[1..] == Atoms(kw, FillPieces(ps[1..], kw, blocks));
      assert Atoms(kw, ps)[1..] == Atoms(kw, ps[1..]);
    }
  }

  /** Restoring keyword `kw` in clean text puts every block where its
      placeholder was, and leaves the text clean for `kw`. */
  lemma RestorePieces(kw: string, ps: seq<Piece>, blocks: seq<string>)
    requires IsKeyword(kw) && CleanFor(kw, ps) && AllBlocked(kw, blocks)
    ensures RestoreAll(Render(ps), kw, blocks) == Render(FillPieces(ps, kw, blocks))
    ensures CleanFor(kw, FillPieces(ps, kw, blocks))
  {
    ShowAtoms(kw, ps);
    RestoreUpToFills(kw, Atoms(kw, ps), blocks, |blocks|);
    FillClean(kw, Atoms(kw, ps), blocks, |blocks|);
    AtomsFill(kw, ps, blocks);
    ShowAtoms(kw, FillPieces(ps, kw, blocks));
  }

  /** Filling one keyword's placeholders with blocks that are blocked for
      another keyword keeps the text clean for that other keyword. */
  lemma CleanAfterFill(other: string, ps: seq<Piece>, kw: string, blocks: seq<string>)
    requires CleanFor(other, ps) && AllBlocked(other, blocks)
    ensures CleanFor(other, FillPieces(ps, kw, blocks))
  {
    var a, b := Atoms(other, ps), Atoms(other, FillPieces(ps, kw, blocks));
    assert AllCoarser(other, a, b);
    CleanCoarser(other, "", a, b);
  }

  /** Another keyword's placeholder is a blocked part for this keyword. */
  lemma TokenBlocked(kw: string, other: string, i: nat)
    requires IsKeyword(kw) && IsKeyword(other) && !Contains(other, kw)
    ensures Blocked(kw, Token(other, i))
  {
    PercentNotInKeyword(kw);
    KeywordInOtherToken(kw, other, i);
  }

  /** Every placeholder of `kw` among the pieces has an index below `n`. */
  predicate SlotsBelow(ps: seq<Piece>, kw: string, n: nat) {
    forall i :: 0 <= i < |ps| ==> ps[i].Slot? && ps[i].kw == kw ==> ps[i].idx < n
  }

  /** Filling placeholders never creates one: the slots left are slots of
      the original pieces. */
  lemma SlotsAfterFill(ps: seq<Piece>, other: string, n: nat, kw: string, blocks: seq<string>)
    requires SlotsBelow(ps, other, n)
    ensures SlotsBelow(FillPieces(ps, kw, blocks), other, n)
  {
  }

  /** When every placeholder has a block, no trace of the keyword is left
      after restoring, and restoring again changes nothing. */
  lemma RestorePiecesComplete(kw: string, ps: seq<Piece>, blocks: seq<string>)
    requires IsKeyword(kw) && CleanFor(kw, ps) && AllBlocked(kw, blocks)
    requires SlotsBelow(ps, kw, |blocks|)
    ensures !Contains(RestoreAll(Render(ps), kw, blocks), kw)
    ensures RestoreAll(RestoreAll(Render(ps), kw, blocks), kw, blocks) == RestoreAll(Render(ps), kw, blocks)
  {
    var atoms := Atoms(kw, ps);
    ShowAtoms(kw, ps);
    assert TokensBelow(atoms, |blocks|);
    RestoreLeavesNoKeyword(kw, atoms, blocks);
    RestoreIdempotent(kw, atoms, blocks);
  }
}
