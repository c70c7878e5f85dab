/** Placeholder tokens `%%%{KEYWORD}{idx}%%%`, as the converters mint them
    for fenced code (`TEMPCODE`, `CODEBLOCK`) and YouTube embeds (`YOUTUBE`),
    and the facts about where a keyword or a token can occur inside tokens
    that make literal-replace restoration sound. */
module Tokens {
  import opened Text

  const TempCode: string := "TEMPCODE"
  const CodeBlock: string := "CODEBLOCK"
  const YouTube: string := "YOUTUBE"

  predicate IsUpper(c: char) {
    'A' <= c <= 'Z'
  }

  /** A placeholder keyword: a non-empty run of capital letters. */
  predicate IsKeyword(kw: string) {
    |kw| > 0 && forall i :: 0 <= i < |kw| ==> IsUpper(kw[i])
  }

  /** The placeholder text f'%%%{kw}{idx}%%%'. */
  function Token(kw: string, idx: nat): (t: string)
    ensures |t| == 6 + |kw| + |Decimal(idx)|
    ensures t[0] == '%' && t[|t| - 1] == '%'
  {
    "%%%" + kw + Decimal(idx) + "%%%"
  }

  lemma PercentNotInKeyword(kw: string)
    requires IsKeyword(kw)
    ensures '%' !in kw
  {
  }

  lemma KeywordsAreKeywords()
    ensures IsKeyword(TempCode) && IsKeyword(CodeBlock) && IsKeyword(YouTube)
  {
  }

  /** A character of an occurrence belongs to the pattern. */
  lemma OccurrenceChar(s: string, q: int, pat: string, p: int)
    requires OccursAt(s, q, pat) && q <= p < q + |pat|
    ensures s[p] == pat[p - q] && s[p] in pat
  {
    assert s[q..q + |pat|][p - q] == s[p];
  }

  lemma FirstCharOfOccurrence(s: string, q: int, pat: string)
    requires |pat| > 0
    ensures OccursAt(s, q, pat) ==> s[q] == pat[0] && s[q] in s
  {
    if OccursAt(s, q, pat) {
      OccurrenceChar(s, q, pat, q);
    }
  }

  /** The characters of a token, by region: the three leading and trailing
      percent signs, the keyword, and the decimal digits in between. */
  lemma TokenChars(kw: string, idx: nat)
    ensures var t := Token(kw, idx);
      && (forall p :: 0 <= p < 3 ==> t[p] == '%')
      && (forall p :: |t| - 3 <= p < |t| ==> t[p] == '%')
      && (forall p :: 3 <= p < 3 + |kw| ==> t[p] == kw[p - 3])
      && (forall p :: 3 + |kw| <= p < |t| - 3 ==> IsDigit(t[p]))
  {
    var t := Token(kw, idx);
    var d := Decimal(idx);
    assert t == "%%%" + kw + d + "%%%";
    forall p | 3 + |kw| <= p < |t| - 3
      ensures IsDigit(t[p])
    {
      assert t[p] == d[p - 3 - |kw|];
    }
  }

  /** A keyword occurs in its own token only right after the leading `%%%`. */
  lemma KeywordInOwnToken(kw: string, idx: nat, q: int)
    requires IsKeyword(kw) && OccursAt(Token(kw, idx), q, kw)
    ensures q == 3
  {
    var t := Token(kw, idx);
    TokenChars(kw, idx);
    OccurrenceChar(t, q, kw, q);
    OccurrenceChar(t, q, kw, q + |kw| - 1);
    assert IsUpper(t[q]) && IsUpper(t[q + |kw| - 1]);
  }

  /** A keyword occurs in another keyword's token only inside that keyword. */
  lemma KeywordInOtherToken(kw: string, other: string, idx: nat)
    requires IsKeyword(kw) && IsKeyword(other) && !Contains(other, kw)
    ensures !Contains(Token(other, idx), kw)
  {
    var t := Token(other, idx);
    forall q | 0 <= q <= |t| - |kw|
      ensures !OccursAt(t, q, kw)
    {
      OccurrenceInToken(kw, other, idx, q);
      ContainsOfOccurs(other, q - 3, kw);
    }
  }

  /** An occurrence of a keyword in a token lies within the token's keyword. */
  lemma OccurrenceInToken(kw: string, other: string, idx: nat, q: int)
    requires IsKeyword(kw) && IsKeyword(other)
    ensures OccursAt(Token(other, idx), q, kw) ==> OccursAt(other, q - 3, kw)
  {
    var t := Token(other, idx);
    if OccursAt(t, q, kw) {
      TokenChars(other, idx);
      OccurrenceChar(t, q, kw, q);
      OccurrenceChar(t, q, kw, q + |kw| - 1);
      assert IsUpper(kw[0]) && IsUpper(kw[|kw| - 1]);
      assert 3 <= q;
      assert q + |kw| <= 3 + |other|;
      assert t[q..q + |kw|] == other[q - 3..q - 3 + |kw|];
    }
  }

  /** A token can only begin where a token with the same index begins:
      the closing `%%%` ends the digits, so `%%%CODEBLOCK1%%%` is not a prefix
      of `%%%CODEBLOCK10%%%...`. */
  lemma TokenPrefix(kw: string, i: nat, j: nat, rest: string)
    ensures StartsWith(Token(kw, i) + rest, Token(kw, j)) ==> i == j
  {
    if StartsWith(Token(kw, i) + rest, Token(kw, j)) {
      var di, dj := Decimal(i), Decimal(j);
      var s := Token(kw, i) + rest;
      var t := Token(kw, j);
      assert s == "%%%" + kw + di + "%%%" + rest;
      var base := 3 + |kw|;
      assert forall p :: 0 <= p < |t| ==> s[p] == t[p];
      assert t[base + |dj|] == '%' && s[base + |di|] == '%';
      assert forall p :: 0 <= p < |di| ==> s[base + p] == di[p];
      assert forall p :: 0 <= p < |dj| ==> t[base + p] == dj[p];
      assert |di| == |dj|;
      assert forall p :: 0 <= p < |di| ==> di[p] == s[base + p] == t[base + p] == dj[p];
      assert di == dj;
      DecimalInjective(i, j);
    }
  }

  /** Tokens with different indices never contain one another. */
  lemma TokenNotInfix(kw: string, i: nat, j: nat)
    requires IsKeyword(kw) && i != j
    ensures !Contains(Token(kw, i), Token(kw, j))
  {
    var s, t := Token(kw, i), Token(kw, j);
    if Contains(s, t) {
      var q :| 0 <= q <= |s| - |t| && OccursAt(s, q, t);
      InnerKeyword(s, q, kw, j);
      KeywordInOwnToken(kw, i, q + 3);
      assert q == 0;
      assert s + "" == s;
      assert StartsWith(Token(kw, i) + "", t);
      TokenPrefix(kw, i, j, "");
    }
  }

  /** Where a token occurs, its keyword occurs three characters later. */
  lemma InnerKeyword(s: string, q: int, kw: string, j: nat)
    ensures OccursAt(s, q, Token(kw, j)) ==> OccursAt(s, q + 3, kw)
  {
    var t := Token(kw, j);
    if OccursAt(s, q, t) {
      assert s[q..q + |t|] == t;
      forall p | 0 <= p < |kw|
        ensures s[q + 3..q + 3 + |kw|][p] == kw[p]
      {
        assert s[q..q + |t|][3 + p] == t[3 + p];
        assert t[3..3 + |kw|][p] == t[3 + p];
      }
    }
  }

  lemma KeywordFacts()
    ensures '%' !in TempCode && '%' !in CodeBlock && '%' !in YouTube
    ensures !Contains(YouTube, TempCode) && !Contains(YouTube, CodeBlock)
    ensures !Contains(TempCode, YouTube) && !Contains(CodeBlock, YouTube)
  {
    assert 'Y' !in CodeBlock && 'Y' !in TempCode;
    forall q | 0 <= q <= |CodeBlock| - |YouTube|
      ensures !OccursAt(CodeBlock, q, YouTube)
    {
      FirstCharOfOccurrence(CodeBlock, q, YouTube);
    }
    forall q | 0 <= q <= |TempCode| - |YouTube|
      ensures !OccursAt(TempCode, q, YouTube)
    {
      FirstCharOfOccurrence(TempCode, q, YouTube);
    }
  }
}
