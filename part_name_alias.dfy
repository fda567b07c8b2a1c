/**
 * `PartNameAlias`: a raw part label as seen in an upload, stored with a
 * normalised form (lower-case, whitespace collapsed) that lookups match on.
 */
module PartNameAliases {
  import opened Wrappers
  import opened Text

  /** Neither the first nor the last character is whitespace. */
  predicate NoOuterSpace(r: string) {
    r == [] || (!IsSpace(r[0]) && !IsSpace(r[|r| - 1]))
  }

  /** Every whitespace character is a plain space followed by a non-whitespace character. */
  predicate SingleSpaces(r: string) {
    forall i :: 0 <= i < |r| && IsSpace(r[i]) ==> r[i] == ' ' && i + 1 < |r| && !IsSpace(r[i + 1])
  }

  /** `normalize(value)`: `" ".join((value or "").strip().lower().split())`. */
  function Normalize(value: Option<string>): (r: string)
    ensures value.None? || value.value == "" ==> r == ""
    ensures NoOuterSpace(r) && SingleSpaces(r) && NoUpper(r)
  {
    var lowered := LowerAscii(Strip(if value.Some? then value.value else ""));
    var ws := Words(lowered);
    JoinWordsShape(ws);
    WordsNoUpper(lowered);
    JoinWordsNoUpper(ws);
    JoinWords(ws)
  }

  /** Normalising a normalised alias changes nothing. */
  lemma NormalizeIdempotent(value: Option<string>)
    ensures Normalize(Some(Normalize(value))) == Normalize(value)
  {
    var r := Normalize(value);
    assert Strip(r) == r;
    assert LowerAscii(r) == r;
    WordsOfJoin(Words(LowerAscii(Strip(if value.Some? then value.value else ""))));
  }

  /** Whitespace before an alias does not change its normal form. */
  lemma NormalizeIgnoresLeadingSpace(c: char, s: string)
    requires IsSpace(c)
    ensures Normalize(Some([c] + s)) == Normalize(Some(s))
  {
    assert ([c] + s)[1..] == s;
  }

  /** `strip()` before `split()` is redundant: the normal form is the lowered words joined by single spaces. */
  lemma NormalizeIsJoinedWords(s: string)
    ensures Normalize(Some(s)) == JoinWords(Words(LowerAscii(s)))
  {
    LowerStrip(s);
    WordsStrip(LowerAscii(s));
  }

  /**
   * The lookup by normal form: two aliases are found under the same
   * normalised key exactly when their lowered words are the same.
   */
  lemma NormalizeSameWords(s: string, t: string)
    ensures Normalize(Some(s)) == Normalize(Some(t)) <==> Words(LowerAscii(s)) == Words(LowerAscii(t))
  {
    NormalizeIsJoinedWords(s);
    NormalizeIsJoinedWords(t);
    WordsOfJoin(Words(LowerAscii(s)));
    WordsOfJoin(Words(LowerAscii(t)));
  }

  /** Normalising keeps every non-whitespace character, lowered, in its order. */
  lemma NormalizeKeepsCharacters(s: string)
    ensures NonSpace(Normalize(Some(s))) == LowerAscii(NonSpace(s))
  {
    var lowered := LowerAscii(Strip(s));
    var ws := Words(lowered);
    NonSpaceOfJoinWords(ws);
    WordsConcat(lowered);
    NonSpaceLower(Strip(s));
    NonSpaceStrip(s);
  }

  /** Aliases that differ only in the case of ASCII letters have the same normal form. */
  lemma NormalizeIgnoresCase(s: string, t: string)
    requires LowerAscii(s) == LowerAscii(t)
    ensures Normalize(Some(s)) == Normalize(Some(t))
  {
    NormalizeSameWords(s, t);
  }

  /** Any non-empty run of whitespace inside an alias normalises to one space. */
  lemma NormalizeCollapsesSpace(a: string, sp: string, b: string)
    requires sp != [] && forall i :: 0 <= i < |sp| ==> IsSpace(sp[i])
    ensures Normalize(Some(a + sp + b)) == Normalize(Some(a + " " + b))
  {
    var la, ls, lb := LowerAscii(a), LowerAscii(sp), LowerAscii(b);
    LowerAsciiAppend(a, sp);
    LowerAsciiAppend(a + sp, b);
    LowerAsciiAppend(a, " ");
    LowerAsciiAppend(a + " ", b);
    assert LowerAscii(" ") == " ";
    assert forall i :: 0 <= i < |ls| ==> ls[i] == sp[i];
    WordsSpaceRun(la, ls, " ", lb);
    NormalizeSameWords(a + sp + b, a + " " + b);
  }

  /** Joining words adds only spaces, so it keeps the words' characters. */
  lemma {:induction false} NonSpaceOfJoinWords(ws: seq<string>)
    requires forall i :: 0 <= i < |ws| ==> NoSpace(ws[i])
    ensures NonSpace(JoinWords(ws)) == Concat(ws)
  {
    if |ws| == 1 {
      NonSpaceOfWord(ws[0]);
      assert ws[0] + [] == ws[0];
    } else if |ws| > 1 {
      var w, rest := ws[0], Join(ws[1..], ' ');
      NonSpaceOfJoinWords(ws[1..]);
      assert JoinWords(ws[1..]) == rest;
      assert Join(ws, ' ') == w + ([' '] + rest);
      NonSpaceAppend(w, [' '] + rest);
      NonSpaceAppend([' '], rest);
      assert [' '][1..] == [];
      assert NonSpace([' ']) == [];
      NonSpaceOfWord(w);
      assert Concat(ws) == w + Concat(ws[1..]);
    }
  }

  /** The words joined with single spaces have no outer whitespace and no whitespace runs. */
  lemma {:induction false} JoinWordsShape(ws: seq<string>)
    requires forall i :: 0 <= i < |ws| ==> ws[i] != [] && NoSpace(ws[i])
    ensures NoOuterSpace(JoinWords(ws)) && SingleSpaces(JoinWords(ws))
  {
    if |ws| > 1 {
      var w, rest := ws[0], Join(ws[1..], ' ');
      JoinWordsShape(ws[1..]);
      assert rest == JoinWords(ws[1..]);
      var r := Join(ws, ' ');
      assert r == w + [' '] + rest;
      forall i | 0 <= i < |r| && IsSpace(r[i])
        ensures r[i] == ' ' && i + 1 < |r| && !IsSpace(r[i + 1])
      {
        if i > |w| {
          assert r[i] == rest[i - |w| - 1];
          assert r[i + 1] == rest[i - |w|];
        }
      }
    }
  }

  /** Joining words without upper-case letters adds only spaces. */
  lemma {:induction false} JoinWordsNoUpper(ws: seq<string>)
    requires forall i :: 0 <= i < |ws| ==> NoUpper(ws[i])
    ensures NoUpper(JoinWords(ws))
  {
    if |ws| > 1 {
      JoinWordsNoUpper(ws[1..]);
      assert JoinWords(ws[1..]) == Join(ws[1..], ' ');
    }
  }

  /** A run of non-whitespace ended by whitespace or by the end is the word prefix. */
  lemma {:induction false} WordPrefixOf(w: string, rest: string)
    requires NoSpace(w) && (rest == [] || IsSpace(rest[0]))
    ensures WordPrefix(w + rest) == w
  {
    if w != [] {
      assert (w + rest)[1..] == w[1..] + rest;
      WordPrefixOf(w[1..], rest);
    }
  }

  /** Splitting words joined with single spaces gives the words back. */
  lemma {:induction false} WordsOfJoin(ws: seq<string>)
    requires forall i :: 0 <= i < |ws| ==> ws[i] != [] && NoSpace(ws[i])
    ensures Words(JoinWords(ws)) == ws
  {
    if |ws| == 1 {
      WordsOfWord(ws[0]);
    } else if |ws| > 1 {
      WordsOfJoin(ws[1..]);
      WordsOfWordSpace(ws[0], Join(ws[1..], ' '));
    }
  }

  lemma WordsOfWord(w: string)
    requires w != [] && NoSpace(w)
    ensures Words(w) == [w]
  {
    assert StripLeft(w) == w;
    WordPrefixOf(w, []);
    assert w + [] == w;
  }

  lemma WordsOfWordSpace(w: string, rest: string)
    requires w != [] && NoSpace(w)
    ensures Words(w + [' '] + rest) == [w] + Words(rest)
  {
    var s := w + [' '] + rest;
    assert StripLeft(s) == s;
    assert s == w + ([' '] + rest);
    WordPrefixOf(w, [' '] + rest);
    assert s[|w|..] == [' '] + rest;
    assert ([' '] + rest)[1..] == rest;
  }

  class PartNameAlias {
    var alias: string
    var aliasNormalized: string

    constructor (alias: string, aliasNormalized: string)
      ensures this.alias == alias && this.aliasNormalized == aliasNormalized
    {
      this.alias := alias;
      this.aliasNormalized := aliasNormalized;
    }

    /** `save`: an empty normalised alias is filled in from the alias; a preset one is kept. */
    method Save()
      modifies this
      ensures alias == old(alias)
      ensures aliasNormalized == if old(aliasNormalized) == "" then Normalize(Some(alias)) else old(aliasNormalized)
    {
      if aliasNormalized == "" {
        aliasNormalized := Normalize(Some(alias));
      }
    }
  }
}
