/**
 * Character and string helpers shared by the models: decimal formatting and
 * parsing of integers, splitting on a separator, substring search and the
 * ASCII case and whitespace classes.
 */
module Text {
  import opened Wrappers

  predicate IsDigit(c: char) {
    '0' <= c <= '9'
  }

  predicate AllDigits(s: string) {
    forall i :: 0 <= i < |s| ==> IsDigit(s[i])
  }

  function DigitChar(d: nat): (c: char)
    requires d < 10
    ensures IsDigit(c)
  {
    ('0' as int + d) as char
  }

  function DigitValue(c: char): (d: nat)
    requires IsDigit(c)
    ensures d < 10 && DigitChar(d) == c
  {
    c as int - '0' as int
  }

  /** Decimal digits of `n`, most significant first, without leading zeros. */
  function NatToString(n: nat): (s: string)
    ensures 0 < |s| && AllDigits(s)
    ensures n < 10 <==> |s| == 1
    decreases n
  {
    if n < 10 then [DigitChar(n)] else NatToString(n / 10) + [DigitChar(n % 10)]
  }

  /** The number a non-empty run of decimal digits denotes. */
  function DigitsValue(s: string): nat
    requires AllDigits(s)
  {
    if s == [] then 0 else DigitsValue(s[..|s| - 1]) * 10 + DigitValue(s[|s| - 1])
  }

  lemma {:induction false} DigitsValueOfNatToString(n: nat)
    ensures DigitsValue(NatToString(n)) == n
    decreases n
  {
    var s := NatToString(n);
    if n >= 10 {
      DigitsValueOfNatToString(n / 10);
      assert s[..|s| - 1] == NatToString(n / 10);
    }
  }

  lemma NatToStringInjective(m: nat, n: nat)
    requires NatToString(m) == NatToString(n)
    ensures m == n
  {
    DigitsValueOfNatToString(m);
    DigitsValueOfNatToString(n);
  }

  /** Python's `str(i)` / `f"{i}"` and JavaScript's template formatting of an integer. */
  function IntToString(i: int): (s: string)
    ensures 0 < |s| && '.' !in s && '-' !in s[1..]
  {
    if i < 0 then "-" + NatToString(-i) else NatToString(i)
  }

  /**
   * Python's `int(s)` on the strings this system produces: an optional sign
   * followed by one or more decimal digits. None stands for the ValueError.
   */
  function ParseInt(s: string): (r: Option<int>)
    ensures r.Some? ==> 0 < |s|
  {
    if s == [] then None
    else if s[0] == '-' || s[0] == '+' then
      var digits := s[1..];
      if digits != [] && AllDigits(digits) then
        var magnitude: int := DigitsValue(digits);
        Some(if s[0] == '-' then -magnitude else magnitude)
      else None
    else if AllDigits(s) then Some(DigitsValue(s))
    else None
  }

  lemma {:induction false} ParseIntToString(i: int)
    ensures ParseInt(IntToString(i)) == Some(i)
  {
    var s := IntToString(i);
    if i < 0 {
      var d := NatToString(-i);
      assert s == "-" + d && s[0] == '-' && s[1..] == d;
      DigitsValueOfNatToString(-i);
    } else {
      assert IsDigit(s[0]);
      DigitsValueOfNatToString(i);
    }
  }

  /** `parts[0] + sep + parts[1] + sep + ...`, the inverse of Split. */
  function Join(parts: seq<string>, sep: char): string
    requires 0 < |parts|
  {
    if |parts| == 1 then parts[0] else parts[0] + [sep] + Join(parts[1..], sep)
  }

  /** Python's `s.split(sep)` and JavaScript's `s.split(sep)` for a one-character separator. */
  function Split(s: string, sep: char): (parts: seq<string>)
    ensures 0 < |parts|
    ensures forall i :: 0 <= i < |parts| ==> sep !in parts[i]
    ensures Join(parts, sep) == s
  {
    if s == [] then [[]]
    else
      var rest := Split(s[1..], sep);
      if s[0] == sep then [[]] + rest
      else [[s[0]] + rest[0]] + rest[1..]
  }

  /** Join of three parts. */
  lemma JoinThree(a: string, b: string, c: string, sep: char)
    ensures Join([a, b, c], sep) == a + [sep] + b + [sep] + c
  {
    var parts := [a, b, c];
    assert parts[1..] == [b, c];
    assert [b, c][1..] == [c];
    assert Join([b, c], sep) == b + [sep] + c;
    assert Join(parts, sep) == a + [sep] + (b + [sep] + c);
  }

  lemma SplitCons(c: char, s: string, sep: char)
    ensures Split([c] + s, sep) ==
      if c == sep then [[]] + Split(s, sep) else [[c] + Split(s, sep)[0]] + Split(s, sep)[1..]
  {
    assert ([c] + s)[1..] == s;
  }

  lemma {:induction false} SplitJoin(parts: seq<string>, sep: char)
    requires 0 < |parts|
    requires forall i :: 0 <= i < |parts| ==> sep !in parts[i]
    ensures Split(Join(parts, sep), sep) == parts
    decreases |parts|, |parts[0]|
  {
    if |parts| == 1 {
      SplitNoSeparator(parts[0], sep);
    } else if parts[0] == [] {
      SplitJoin(parts[1..], sep);
      SplitJoinEmptyHead(parts, sep);
    } else {
      var shorter := [parts[0][1..]] + parts[1..];
      assert shorter[1..] == parts[1..];
      SplitJoin(shorter, sep);
      SplitJoinLongerHead(parts, sep);
    }
  }

  /** The step of SplitJoin for an empty first part. */
  lemma SplitJoinEmptyHead(parts: seq<string>, sep: char)
    requires 1 < |parts| && parts[0] == []
    requires Split(Join(parts[1..], sep), sep) == parts[1..]
    ensures Split(Join(parts, sep), sep) == parts
  {
    var tail := Join(parts[1..], sep);
    assert Join(parts, sep) == [sep] + tail;
    SplitCons(sep, tail, sep);
  }

  /** The step of SplitJoin for a first part that starts with a character other than the separator. */
  lemma SplitJoinLongerHead(parts: seq<string>, sep: char)
    requires 1 < |parts| && parts[0] != [] && parts[0][0] != sep
    requires Split(Join([parts[0][1..]] + parts[1..], sep), sep) == [parts[0][1..]] + parts[1..]
    ensures Split(Join(parts, sep), sep) == parts
  {
    var head := parts[0];
    var shorter := [head[1..]] + parts[1..];
    assert shorter[1..] == parts[1..];
    var tail := Join(shorter, sep);
    assert Join(parts, sep) == [head[0]] + tail;
    SplitCons(head[0], tail, sep);
    assert [head[0]] + head[1..] == head;
  }

  lemma {:induction false} SplitNoSeparator(s: string, sep: char)
    requires sep !in s
    ensures Split(s, sep) == [s]
  {
    if s != [] {
      SplitNoSeparator(s[1..], sep);
      assert [s[0]] + s[1..] == s;
    }
  }

  /** `needle` occurs in `haystack` starting at index `i`. */
  predicate OccursAt(haystack: string, needle: string, i: int) {
    0 <= i <= |haystack| - |needle| && haystack[i..i + |needle|] == needle
  }

  /** Python's `needle in haystack` on strings. */
  predicate Contains(haystack: string, needle: string) {
    exists i :: 0 <= i <= |haystack| && OccursAt(haystack, needle, i)
  }

  predicate EndsWith(s: string, suffix: string) {
    |suffix| <= |s| && s[|s| - |suffix|..] == suffix
  }

  predicate IsUpperAscii(c: char) {
    'A' <= c <= 'Z'
  }

  predicate NoUpper(s: string) {
    forall i :: 0 <= i < |s| ==> !IsUpperAscii(s[i])
  }

  /** `c.lower()` restricted to ASCII letters. */
  function LowerChar(c: char): (r: char)
    ensures !IsUpperAscii(r)
    ensures !IsUpperAscii(c) ==> r == c
  {
    if IsUpperAscii(c) then (c as int + 32) as char else c
  }

  function LowerAscii(s: string): (r: string)
    ensures |r| == |s|
    ensures forall i :: 0 <= i < |s| ==> r[i] == LowerChar(s[i])
  {
    seq(|s|, i requires 0 <= i < |s| => LowerChar(s[i]))
  }

  /** The characters for which Python's `str.isspace()` holds, which `str.split()` and `str.strip()` remove. */
  predicate IsSpace(c: char) {
    // space, \t \n \x0b \x0c \r, the separators \x1c to \x1f, and the Unicode spaces and line separators
    c == ' ' || 9 <= c as int <= 13 || 28 <= c as int <= 31 ||
    c as int == 0x85 || c as int == 0xA0 || c as int == 0x1680 ||
    0x2000 <= c as int <= 0x200A || c as int == 0x2028 || c as int == 0x2029 ||
    c as int == 0x202F || c as int == 0x205F || c as int == 0x3000
  }

  /** No character of `w` is whitespace. */
  predicate NoSpace(w: string) {
    forall i :: 0 <= i < |w| ==> !IsSpace(w[i])
  }

  /** `s.lstrip()`: `s` without its leading whitespace. */
  function StripLeft(s: string): (r: string)
    ensures |r| <= |s| && r == s[|s| - |r|..]
    ensures forall i :: 0 <= i < |s| - |r| ==> IsSpace(s[i])
    ensures r == [] || !IsSpace(r[0])
  {
    if s != [] && IsSpace(s[0]) then StripLeft(s[1..]) else s
  }

  /** `s.rstrip()`: `s` without its trailing whitespace. */
  function StripRight(s: string): (r: string)
    ensures |r| <= |s| && r == s[..|r|]
    ensures forall i :: |r| <= i < |s| ==> IsSpace(s[i])
    ensures r == [] || !IsSpace(r[|r| - 1])
  {
    if s != [] && IsSpace(s[|s| - 1]) then StripRight(s[..|s| - 1]) else s
  }

  /** `s.strip()` */
  function Strip(s: string): string {
    StripRight(StripLeft(s))
  }

  /** The longest prefix of `t` without whitespace. */
  function WordPrefix(t: string): (w: string)
    ensures w <= t && NoSpace(w)
    ensures |w| < |t| ==> IsSpace(t[|w|])
  {
    if t == [] || IsSpace(t[0]) then [] else [t[0]] + WordPrefix(t[1..])
  }

  /** The characters of `s` that are not whitespace, in order. */
  function NonSpace(s: string): string {
    if s == [] then [] else (if IsSpace(s[0]) then [] else [s[0]]) + NonSpace(s[1..])
  }

  /** The strings of `ws` one after the other. */
  function Concat(ws: seq<string>): string {
    if ws == [] then [] else ws[0] + Concat(ws[1..])
  }

  lemma {:induction false} NonSpaceAppend(a: string, b: string)
    ensures NonSpace(a + b) == NonSpace(a) + NonSpace(b)
  {
    if a != [] {
      assert (a + b)[0] == a[0];
      assert (a + b)[1..] == a[1..] + b;
      NonSpaceAppend(a[1..], b);
    } else {
      assert a + b == b;
    }
  }

  lemma {:induction false} NonSpaceOfSpaces(a: string)
    requires forall i :: 0 <= i < |a| ==> IsSpace(a[i])
    ensures NonSpace(a) == []
  {
    if a != [] {
      NonSpaceOfSpaces(a[1..]);
    }
  }

  lemma {:induction false} NonSpaceOfWord(w: string)
    requires NoSpace(w)
    ensures NonSpace(w) == w
  {
    if w != [] {
      NonSpaceOfWord(w[1..]);
      assert [w[0]] + w[1..] == w;
    }
  }

  lemma {:induction false} NonSpaceStripLeft(s: string)
    ensures NonSpace(StripLeft(s)) == NonSpace(s)
  {
    if s != [] && IsSpace(s[0]) {
      NonSpaceStripLeft(s[1..]);
    }
  }

  lemma {:induction false} NonSpaceStripRight(s: string)
    ensures NonSpace(StripRight(s)) == NonSpace(s)
  {
    if s != [] && IsSpace(s[|s| - 1]) {
      var init := s[..|s| - 1];
      assert s == init + [s[|s| - 1]];
      NonSpaceAppend(init, [s[|s| - 1]]);
      NonSpaceStripRight(init);
    }
  }

  /** Stripping removes only whitespace. */
  lemma NonSpaceStrip(s: string)
    ensures NonSpace(Strip(s)) == NonSpace(s)
  {
    NonSpaceStripLeft(s);
    NonSpaceStripRight(StripLeft(s));
  }

  lemma LowerAsciiAppend(a: string, b: string)
    ensures LowerAscii(a + b) == LowerAscii(a) + LowerAscii(b)
  {
    assert forall i :: 0 <= i < |a + b| ==> LowerAscii(a + b)[i] == (LowerAscii(a) + LowerAscii(b))[i];
  }

  /** Lowering a letter never makes or unmakes whitespace. */
  lemma {:induction false} NonSpaceLower(s: string)
    ensures NonSpace(LowerAscii(s)) == LowerAscii(NonSpace(s))
  {
    if s != [] {
      var l := LowerAscii(s);
      assert IsSpace(l[0]) <==> IsSpace(s[0]);
      assert l[1..] == LowerAscii(s[1..]);
      NonSpaceLower(s[1..]);
      var head := if IsSpace(s[0]) then [] else [s[0]];
      LowerAsciiAppend(head, NonSpace(s[1..]));
    }
  }

  lemma {:induction false} LowerStripLeft(s: string)
    ensures StripLeft(LowerAscii(s)) == LowerAscii(StripLeft(s))
  {
    if s != [] {
      var l := LowerAscii(s);
      assert IsSpace(l[0]) <==> IsSpace(s[0]);
      if IsSpace(s[0]) {
        assert l[1..] == LowerAscii(s[1..]);
        LowerStripLeft(s[1..]);
      }
    }
  }

  lemma {:induction false} LowerStripRight(s: string)
    ensures StripRight(LowerAscii(s)) == LowerAscii(StripRight(s))
  {
    if s != [] {
      var l := LowerAscii(s);
      assert IsSpace(l[|s| - 1]) <==> IsSpace(s[|s| - 1]);
      if IsSpace(s[|s| - 1]) {
        assert l[..|s| - 1] == LowerAscii(s[..|s| - 1]);
        LowerStripRight(s[..|s| - 1]);
      }
    }
  }

  /** `s.strip().lower()` is `s.lower().strip()`. */
  lemma LowerStrip(s: string)
    ensures LowerAscii(Strip(s)) == Strip(LowerAscii(s))
  {
    LowerStripLeft(s);
    LowerStripRight(StripLeft(s));
  }

  lemma ConcatCons(w: string, ws: seq<string>)
    ensures Concat([w] + ws) == w + Concat(ws)
  {
    assert ([w] + ws)[1..] == ws;
  }

  /** A word at the start of `t` keeps all its characters in `NonSpace(t)`. */
  lemma WordThen(t: string, w: string)
    requires w <= t && NoSpace(w)
    ensures NonSpace(t) == w + NonSpace(t[|w|..])
  {
    assert t == w + t[|w|..];
    NonSpaceAppend(w, t[|w|..]);
    NonSpaceOfWord(w);
  }

  /** The first word of a string is not empty, so what follows it is shorter. */
  lemma WordStep(s: string)
    requires StripLeft(s) != []
    ensures var t := StripLeft(s); 0 < |WordPrefix(t)| && |t| - |WordPrefix(t)| < |s|
  {
    var t := StripLeft(s);
    assert !IsSpace(t[0]);
  }

  lemma ConsWords(w: string, ws: seq<string>)
    requires w != [] && NoSpace(w)
    requires forall i :: 0 <= i < |ws| ==> ws[i] != [] && NoSpace(ws[i])
    ensures forall i :: 0 <= i < |[w] + ws| ==> ([w] + ws)[i] != [] && NoSpace(([w] + ws)[i])
  {
    forall i | 0 <= i < |[w] + ws|
      ensures ([w] + ws)[i] != [] && NoSpace(([w] + ws)[i])
    {
      if i > 0 {
        assert ([w] + ws)[i] == ws[i - 1];
      }
    }
  }

  /** `s.split()` with no argument: the maximal runs of non-whitespace, in order. */
  function Words(s: string): (ws: seq<string>)
    ensures forall i :: 0 <= i < |ws| ==> ws[i] != [] && NoSpace(ws[i])
    decreases |s|
  {
    var t := StripLeft(s);
    if t == [] then []
    else
      var w := WordPrefix(t);
      WordStep(s);
      var ws := Words(t[|w|..]);
      ConsWords(w, ws);
      [w] + ws
  }

  /** The words one after the other are the input without its whitespace. */
  lemma {:induction false} WordsConcat(s: string)
    ensures Concat(Words(s)) == NonSpace(s)
    decreases |s|
  {
    var t := StripLeft(s);
    NonSpaceStripLeft(s);
    if t != [] {
      var w := WordPrefix(t);
      var rest := t[|w|..];
      assert Words(s) == [w] + Words(rest);
      WordsConcat(rest);
      WordThen(t, w);
      ConcatCons(w, Words(rest));
    }
  }

  lemma WordsSpaceCons(c: char, x: string)
    requires IsSpace(c)
    ensures Words([c] + x) == Words(x)
  {
    assert ([c] + x)[1..] == x;
  }

  lemma WordsSingleCons(c: char, x: string)
    requires !IsSpace(c) && (x == [] || IsSpace(x[0]))
    ensures Words([c] + x) == [[c]] + Words(x)
  {
    var s := [c] + x;
    assert s[0] == c && s[1..] == x;
    assert StripLeft(s) == s;
    assert WordPrefix(s) == [c];
  }

  lemma WordsJoinCons(c: char, x: string)
    requires !IsSpace(c) && x != [] && !IsSpace(x[0])
    ensures |Words(x)| > 0 && Words([c] + x) == [[c] + Words(x)[0]] + Words(x)[1..]
  {
    var s := [c] + x;
    assert s[0] == c && s[1..] == x;
    assert StripLeft(s) == s;
    assert StripLeft(x) == x;
    var w := WordPrefix(x);
    assert WordPrefix(s) == [c] + w;
    assert s[|w| + 1..] == x[|w|..];
  }

  /**
   * `split()` one character at a time: whitespace is dropped, a character
   * before whitespace or the end is a word of its own, and any other
   * character starts the first word of the rest.
   */
  lemma WordsCons(c: char, x: string)
    ensures IsSpace(c) ==> Words([c] + x) == Words(x)
    ensures !IsSpace(c) && (x == [] || IsSpace(x[0])) ==> Words([c] + x) == [[c]] + Words(x)
    ensures !IsSpace(c) && x != [] && !IsSpace(x[0]) ==>
      |Words(x)| > 0 && Words([c] + x) == [[c] + Words(x)[0]] + Words(x)[1..]
  {
    if IsSpace(c) {
      WordsSpaceCons(c, x);
    } else if x == [] || IsSpace(x[0]) {
      WordsSingleCons(c, x);
    } else {
      WordsJoinCons(c, x);
    }
  }

  lemma {:induction false} WordsDropSpaces(sp: string, b: string)
    requires forall i :: 0 <= i < |sp| ==> IsSpace(sp[i])
    ensures Words(sp + b) == Words(b)
  {
    if sp != [] {
      assert sp + b == [sp[0]] + (sp[1..] + b);
      WordsSpaceCons(sp[0], sp[1..] + b);
      WordsDropSpaces(sp[1..], b);
    } else {
      assert sp + b == b;
    }
  }

  /** Whitespace at the end adds no word. */
  lemma {:induction false} WordsAppendSpaces(x: string, sp: string)
    requires forall i :: 0 <= i < |sp| ==> IsSpace(sp[i])
    ensures Words(x + sp) == Words(x)
  {
    if x == [] {
      assert x + sp == sp + [];
      WordsDropSpaces(sp, []);
    } else {
      var c, y := x[0], x[1..];
      assert x == [c] + y && x + sp == [c] + (y + sp);
      WordsAppendSpaces(y, sp);
      if y != [] {
        assert (y + sp)[0] == y[0];
      } else if sp != [] {
        assert (y + sp)[0] == sp[0];
      }
      WordsCons(c, y + sp);
      WordsCons(c, y);
    }
  }

  lemma {:induction false} WordsStripLeft(s: string)
    ensures Words(StripLeft(s)) == Words(s)
  {
    if s != [] && IsSpace(s[0]) {
      assert s == [s[0]] + s[1..];
      WordsSpaceCons(s[0], s[1..]);
      WordsStripLeft(s[1..]);
    }
  }

  lemma {:induction false} WordsStripRight(s: string)
    ensures Words(StripRight(s)) == Words(s)
  {
    if s != [] && IsSpace(s[|s| - 1]) {
      var init := s[..|s| - 1];
      assert s == init + [s[|s| - 1]];
      WordsAppendSpaces(init, [s[|s| - 1]]);
      WordsStripRight(init);
    }
  }

  /** `s.strip().split()` is `s.split()`. */
  lemma WordsStrip(s: string)
    ensures Words(Strip(s)) == Words(s)
  {
    WordsStripLeft(s);
    WordsStripRight(StripLeft(s));
  }

  /** Any non-empty run of whitespace separates two words as well as any other. */
  lemma {:induction false} WordsSpaceRun(a: string, sp1: string, sp2: string, b: string)
    requires sp1 != [] && forall i :: 0 <= i < |sp1| ==> IsSpace(sp1[i])
    requires sp2 != [] && forall i :: 0 <= i < |sp2| ==> IsSpace(sp2[i])
    ensures Words(a + sp1 + b) == Words(a + sp2 + b)
  {
    if a == [] {
      assert a + sp1 + b == sp1 + b && a + sp2 + b == sp2 + b;
      WordsDropSpaces(sp1, b);
      WordsDropSpaces(sp2, b);
    } else {
      var c, y := a[0], a[1..];
      assert a + sp1 + b == [c] + (y + sp1 + b);
      assert a + sp2 + b == [c] + (y + sp2 + b);
      WordsSpaceRun(y, sp1, sp2, b);
      if y != [] {
        assert (y + sp1 + b)[0] == y[0] && (y + sp2 + b)[0] == y[0];
      } else {
        assert (y + sp1 + b)[0] == sp1[0] && (y + sp2 + b)[0] == sp2[0];
      }
      WordsCons(c, y + sp1 + b);
      WordsCons(c, y + sp2 + b);
    }
  }

  /** The words of a string without upper-case letters have none either. */
  lemma NoUpperSlice(s: string, i: nat, j: nat)
    requires NoUpper(s) && i <= j <= |s|
    ensures NoUpper(s[i..j])
  {
    forall k | 0 <= k < j - i
      ensures !IsUpperAscii(s[i..j][k])
    {
      assert s[i..j][k] == s[i + k];
    }
  }

  lemma {:induction false} WordsNoUpper(s: string)
    requires NoUpper(s)
    ensures forall i :: 0 <= i < |Words(s)| ==> NoUpper(Words(s)[i])
    decreases |s|
  {
    var t := StripLeft(s);
    if t != [] {
      var w := WordPrefix(t);
      var rest := t[|w|..];
      WordStep(s);
      NoUpperSlice(s, |s| - |t|, |s|);
      NoUpperSlice(t, 0, |w|);
      assert t[..|w|] == w;
      NoUpperSlice(t, |w|, |t|);
      WordsNoUpper(rest);
      assert Words(s) == [w] + Words(rest);
      ConsNoUpper(w, Words(rest));
    }
  }

  lemma ConsNoUpper(w: string, ws: seq<string>)
    requires NoUpper(w) && forall i :: 0 <= i < |ws| ==> NoUpper(ws[i])
    ensures forall i :: 0 <= i < |[w] + ws| ==> NoUpper(([w] + ws)[i])
  {
    forall i | 0 <= i < |[w] + ws|
      ensures NoUpper(([w] + ws)[i])
    {
      if i > 0 {
        assert ([w] + ws)[i] == ws[i - 1];
      }
    }
  }

  /** `" ".join(ws)` */
  function JoinWords(ws: seq<string>): string {
    if ws == [] then "" else Join(ws, ' ')
  }
}
