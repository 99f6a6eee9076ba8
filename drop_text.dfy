/**
 * Answer normalisation of the DROP evaluator (`_normalize` and the string
 * helpers it is built from): lower-casing, punctuation removal unless the
 * token is a number, number canonicalisation, article removal and whitespace
 * collapsing, applied token by token.
 */
module DropText {

  /**
   * The parts of the Python runtime this model leaves uninterpreted. Every
   * property proved below holds whatever these functions are.
   */
  datatype TextOracle = TextOracle(
    isNumber: string -> bool,        // `float(text)` succeeds
    floatRepr: string -> string,     // `str(float(text))`
    lowerNonAscii: string -> string, // `str.lower()` of a string holding a non-ASCII character
    isWordNonAscii: char -> bool)    // a non-ASCII character belongs to the regex class `\w`

  // ---------------------------------------------------------------------
  // Character classes
  // ---------------------------------------------------------------------

  /** `str.isspace()`: the characters that `str.split()` and `str.strip()` treat as whitespace. */
  predicate IsSpace(c: char) {
    var n := c as int;
    n == 0x20 || 0x09 <= n <= 0x0D || 0x1C <= n <= 0x1F || n == 0x85 || n == 0xA0 || n == 0x1680
    || 0x2000 <= n <= 0x200A || n == 0x2028 || n == 0x2029 || n == 0x202F || n == 0x205F || n == 0x3000
  }

  /** Membership in `string.punctuation`, the 32 ASCII punctuation characters. */
  predicate IsPunct(c: char) {
    var n := c as int;
    0x21 <= n <= 0x2F || 0x3A <= n <= 0x40 || 0x5B <= n <= 0x60 || 0x7B <= n <= 0x7E
  }

  predicate IsAsciiChar(c: char) {
    (c as int) < 0x80
  }

  predicate IsAscii(s: string) {
    forall i :: 0 <= i < |s| ==> IsAsciiChar(s[i])
  }

  /** The regex class `\w` of a Unicode pattern; on ASCII it is exactly `[0-9A-Za-z_]`. */
  predicate IsWordChar(o: TextOracle, c: char) {
    if IsAsciiChar(c) then ('0' <= c <= '9') || ('A' <= c <= 'Z') || ('a' <= c <= 'z') || c == '_'
    else o.isWordNonAscii(c)
  }

  // ---------------------------------------------------------------------
  // `str.lower()`
  // ---------------------------------------------------------------------

  function AsciiLowerChar(c: char): char {
    if 'A' <= c <= 'Z' then (c as int + 32) as char else c
  }

  /** `str.lower()`: on an all-ASCII string it maps `A`-`Z` to `a`-`z` and keeps the rest. */
  function Lower(o: TextOracle, s: string): (r: string)
    ensures IsAscii(s) ==> |r| == |s| && forall i :: 0 <= i < |s| ==> r[i] == AsciiLowerChar(s[i]) && !('A' <= r[i] <= 'Z')
    ensures IsAscii(s) && (forall i :: 0 <= i < |s| ==> !('A' <= s[i] <= 'Z')) ==> r == s
  {
    if IsAscii(s) then seq(|s|, i requires 0 <= i < |s| => AsciiLowerChar(s[i]))
    else o.lowerNonAscii(s)
  }

  // ---------------------------------------------------------------------
  // `_remove_punc` and `_fix_number`
  // ---------------------------------------------------------------------

  /** The characters of `s` that are not in `string.punctuation`, in order. */
  function DropPunct(s: string): (r: string)
    ensures |r| <= |s|
    ensures forall i :: 0 <= i < |r| ==> !IsPunct(r[i])
    ensures forall i :: 0 <= i < |s| && !IsPunct(s[i]) ==> s[i] in r
  {
    if |s| == 0 then []
    else (if IsPunct(s[0]) then [] else [s[0]]) + DropPunct(s[1..])
  }

  /** A string with no punctuation is left as it is. */
  lemma {:induction false} DropPunctKeeps(s: string)
    requires forall i :: 0 <= i < |s| ==> !IsPunct(s[i])
    ensures DropPunct(s) == s
  {
    if |s| > 0 {
      DropPunctKeeps(s[1..]);
    }
  }

  /** Filtering distributes over concatenation, so the kept characters stay in their order. */
  lemma {:induction false} DropPunctAppend(a: string, b: string)
    ensures DropPunct(a + b) == DropPunct(a) + DropPunct(b)
  {
    if |a| > 0 {
      DropPunctAppend(a[1..], b);
      assert (a + b)[1..] == a[1..] + b;
    } else {
      assert a + b == b;
    }
  }

  /** One character is dropped exactly when it is punctuation. */
  lemma DropPunctChar(c: char)
    ensures DropPunct([c]) == if IsPunct(c) then [] else [c]
  {
    assert [c][1..] == [];
  }

  /**
   * `_remove_punc`: numbers are kept whole; everything else loses its
   * punctuation and keeps every other character.
   */
  function RemovePunc(o: TextOracle, text: string): (r: string)
    ensures o.isNumber(text) ==> r == text
    ensures !o.isNumber(text) ==> |r| <= |text| && forall i :: 0 <= i < |r| ==> !IsPunct(r[i])
    ensures !o.isNumber(text) ==> forall i :: 0 <= i < |text| && !IsPunct(text[i]) ==> text[i] in r
  {
    if !o.isNumber(text) then DropPunct(text) else text
  }

  /** Removing punctuation twice is removing it once. */
  lemma RemovePuncIdempotent(o: TextOracle, text: string)
    ensures RemovePunc(o, RemovePunc(o, text)) == RemovePunc(o, text)
  {
    var r := RemovePunc(o, text);
    if !o.isNumber(text) && !o.isNumber(r) {
      DropPunctKeeps(r);
    }
  }

  /** `_fix_number`: a number is replaced by the text of its float value. */
  function FixNumber(o: TextOracle, text: string): (r: string)
    ensures !o.isNumber(text) ==> r == text
  {
    if o.isNumber(text) then o.floatRepr(text) else text
  }

  // ---------------------------------------------------------------------
  // `_tokenize`: `re.split(" |-", text)`
  // ---------------------------------------------------------------------

  predicate IsTokenSep(c: char) {
    c == ' ' || c == '-'
  }

  /** The pieces between single spaces and hyphens; empty pieces are kept. */
  function Tokenize(s: string): (r: seq<string>)
    ensures |r| >= 1
    ensures forall k :: 0 <= k < |r| ==> forall i :: 0 <= i < |r[k]| ==> !IsTokenSep(r[k][i])
  {
    if |s| == 0 then [[]]
    else
      var rest := Tokenize(s[1..]);
      if IsTokenSep(s[0]) then [[]] + rest
      else [[s[0]] + rest[0]] + rest[1..]
  }

  /** The separators of `s`, in order. */
  function Separators(s: string): string {
    if |s| == 0 then [] else (if IsTokenSep(s[0]) then [s[0]] else []) + Separators(s[1..])
  }

  /** Puts the pieces back together with the given separators between them. */
  function Interleave(pieces: seq<string>, seps: string): string
    requires |pieces| == |seps| + 1
  {
    if |seps| == 0 then pieces[0]
    else pieces[0] + [seps[0]] + Interleave(pieces[1..], seps[1..])
  }

  lemma InterleaveHead(x: char, pieces: seq<string>, seps: string)
    requires |pieces| == |seps| + 1
    ensures Interleave([[x] + pieces[0]] + pieces[1..], seps) == [x] + Interleave(pieces, seps)
  {
    var ps := [[x] + pieces[0]] + pieces[1..];
    assert ps[1..] == pieces[1..];
  }

  /** Splitting loses nothing: the pieces and the separators rebuild the input. */
  lemma {:induction false} TokenizeRoundTrip(s: string)
    ensures |Tokenize(s)| == |Separators(s)| + 1
    ensures Interleave(Tokenize(s), Separators(s)) == s
  {
    if |s| > 0 {
      TokenizeRoundTrip(s[1..]);
      var rest := Tokenize(s[1..]);
      if IsTokenSep(s[0]) {
        assert ([[]] + rest)[1..] == rest;
        assert Separators(s) == [s[0]] + Separators(s[1..]);
        assert ([s[0]] + Separators(s[1..]))[1..] == Separators(s[1..]);
        assert s == [s[0]] + s[1..];
      } else {
        assert Separators(s) == [] + Separators(s[1..]) == Separators(s[1..]);
        InterleaveHead(s[0], rest, Separators(s[1..]));
        assert s == [s[0]] + s[1..];
      }
    }
  }

  // ---------------------------------------------------------------------
  // `str.split()`, `" ".join(...)` and `_white_space_fix`
  // ---------------------------------------------------------------------

  /** A piece of `str.split()`: non-empty and free of whitespace. */
  predicate IsField(w: string) {
    w != [] && forall i :: 0 <= i < |w| ==> !IsSpace(w[i])
  }

  /** The length of the longest whitespace-free prefix. */
  function RunLength(s: string): (k: nat)
    ensures k <= |s|
    ensures forall i :: 0 <= i < k ==> !IsSpace(s[i])
    ensures k == |s| || IsSpace(s[k])
  {
    if |s| == 0 || IsSpace(s[0]) then 0 else 1 + RunLength(s[1..])
  }

  /** `str.split()` with no argument: the maximal whitespace-free runs. */
  function Words(s: string): (ws: seq<string>)
    ensures forall k :: 0 <= k < |ws| ==> IsField(ws[k])
    decreases |s|
  {
    if |s| == 0 then []
    else if IsSpace(s[0]) then Words(s[1..])
    else
      var k := RunLength(s);
      assert k > 0 by { assert !IsSpace(s[0]); }
      [s[..k]] + Words(s[k..])
  }

  /** `" ".join(ws)`. */
  function JoinSpace(ws: seq<string>): string {
    if |ws| == 0 then []
    else if |ws| == 1 then ws[0]
    else ws[0] + " " + JoinSpace(ws[1..])
  }

  /**
   * No whitespace at either end, every whitespace character is a space, and
   * no two whitespace characters are adjacent.
   */
  ghost predicate Tidy(s: string) {
    && (s == [] || (!IsSpace(s[0]) && !IsSpace(s[|s| - 1])))
    && (forall i :: 0 <= i < |s| && IsSpace(s[i]) ==> s[i] == ' ')
    && (forall i, j :: 0 <= i < j < |s| && j == i + 1 ==> !(IsSpace(s[i]) && IsSpace(s[j])))
  }

  /** Joining non-empty tidy strings with single spaces gives a tidy string. */
  lemma {:induction false} JoinTidy(ws: seq<string>)
    requires forall k :: 0 <= k < |ws| ==> ws[k] != [] && Tidy(ws[k])
    ensures Tidy(JoinSpace(ws))
    ensures |ws| > 0 ==> JoinSpace(ws) != []
  {
    if |ws| > 1 {
      JoinTidy(ws[1..]);
      var w, rest := ws[0], JoinSpace(ws[1..]);
      var j := w + " " + rest;
      assert JoinSpace(ws) == j;
      assert !IsSpace(rest[0]) && !IsSpace(rest[|rest| - 1]);
      assert j[0] == w[0] && j[|j| - 1] == rest[|rest| - 1];
      forall i | 0 <= i < |j| && IsSpace(j[i])
        ensures j[i] == ' '
      {
        if i < |w| {
          assert j[i] == w[i];
        } else if i > |w| {
          assert j[i] == rest[i - |w| - 1];
        }
      }
      forall i, i' | 0 <= i < i' < |j| && i' == i + 1
        ensures !(IsSpace(j[i]) && IsSpace(j[i']))
      {
        if i' < |w| {
          assert j[i] == w[i] && j[i'] == w[i'];
        } else if i' == |w| {
          assert j[i] == w[|w| - 1];
        } else if i == |w| {
          assert j[i'] == rest[0];
        } else {
          assert j[i] == rest[i - |w| - 1] && j[i'] == rest[i' - |w| - 1];
        }
      }
    }
  }

  /** A field followed by whitespace (or nothing) is split off as the first word. */
  lemma WordsAfterField(w: string, t: string)
    requires IsField(w)
    requires t == [] || IsSpace(t[0])
    ensures Words(w + t) == [w] + Words(t)
  {
    var s := w + t;
    var k := RunLength(s);
    assert !IsSpace(s[0]) by { assert s[0] == w[0]; }
    assert k == |w| by {
      assert forall i :: 0 <= i < |w| ==> s[i] == w[i];
      assert |w| < |s| ==> s[|w|] == t[0];
    }
    assert s[..k] == w;
    assert s[k..] == t;
  }

  /** `str.split()` undoes `" ".join` of fields. */
  lemma {:induction false} WordsOfJoin(ws: seq<string>)
    requires forall k :: 0 <= k < |ws| ==> IsField(ws[k])
    ensures Words(JoinSpace(ws)) == ws
  {
    if |ws| == 1 {
      WordsAfterField(ws[0], []);
      assert ws[0] + [] == ws[0];
    } else if |ws| > 1 {
      var rest := JoinSpace(ws[1..]);
      WordsOfJoin(ws[1..]);
      assert ws[0] + " " + rest == ws[0] + (" " + rest);
      WordsAfterField(ws[0], " " + rest);
      assert (" " + rest)[1..] == rest;
    }
  }

  /** `_white_space_fix`: `" ".join(text.split())`. The result is tidy and has the words of the input. */
  function WhiteSpaceFix(text: string): (r: string)
    ensures Tidy(r)
    ensures Words(r) == Words(text)
  {
    var ws := Words(text);
    JoinTidy(ws);
    WordsOfJoin(ws);
    JoinSpace(ws)
  }

  /** Collapsing whitespace a second time changes nothing. */
  lemma WhiteSpaceFixIdempotent(text: string)
    ensures WhiteSpaceFix(WhiteSpaceFix(text)) == WhiteSpaceFix(text)
  {
    WordsOfJoin(Words(text));
  }

  /** The characters of `s` that are not whitespace, in order. */
  function Squash(s: string): string {
    if |s| == 0 then [] else (if IsSpace(s[0]) then [] else [s[0]]) + Squash(s[1..])
  }

  function Concat(ws: seq<string>): string {
    if |ws| == 0 then [] else ws[0] + Concat(ws[1..])
  }

  lemma {:induction false} SquashAppend(a: string, b: string)
    ensures Squash(a + b) == Squash(a) + Squash(b)
  {
    if |a| > 0 {
      SquashAppend(a[1..], b);
      assert (a + b)[1..] == a[1..] + b;
    } else {
      assert a + b == b;
    }
  }

  lemma {:induction false} SquashField(w: string)
    requires forall i :: 0 <= i < |w| ==> !IsSpace(w[i])
    ensures Squash(w) == w
  {
    if |w| > 0 {
      SquashField(w[1..]);
    }
  }

  lemma {:induction false} SquashJoin(ws: seq<string>)
    requires forall k :: 0 <= k < |ws| ==> IsField(ws[k])
    ensures Squash(JoinSpace(ws)) == Concat(ws)
  {
    if |ws| == 1 {
      SquashField(ws[0]);
      assert Concat(ws) == ws[0] + Concat([]);
    } else if |ws| > 1 {
      SquashJoin(ws[1..]);
      SquashAppend(ws[0] + " ", JoinSpace(ws[1..]));
      SquashAppend(ws[0], " ");
      SquashField(ws[0]);
    }
  }

  lemma {:induction false} ConcatWords(s: string)
    ensures Concat(Words(s)) == Squash(s)
    decreases |s|
  {
    if |s| > 0 {
      if IsSpace(s[0]) {
        ConcatWords(s[1..]);
      } else {
        var k := RunLength(s);
        assert !IsSpace(s[0]);
        ConcatWords(s[k..]);
        assert s == s[..k] + s[k..];
        SquashAppend(s[..k], s[k..]);
        SquashField(s[..k]);
        assert Concat(Words(s)) == s[..k] + Concat(Words(s[k..]));
      }
    }
  }

  /** Collapsing whitespace keeps every other character, in order. */
  lemma WhiteSpaceFixKeepsText(text: string)
    ensures Squash(WhiteSpaceFix(text)) == Squash(text)
  {
    SquashJoin(Words(text));
    ConcatWords(text);
  }

  // ---------------------------------------------------------------------
  // `str.strip()`
  // ---------------------------------------------------------------------

  function TrimLeft(s: string): (r: string)
    ensures |r| <= |s| && r == s[|s| - |r|..]
    ensures forall i :: 0 <= i < |s| - |r| ==> IsSpace(s[i])
    ensures r == [] || !IsSpace(r[0])
  {
    if |s| > 0 && IsSpace(s[0]) then TrimLeft(s[1..]) else s
  }

  function TrimRight(s: string): (r: string)
    ensures |r| <= |s| && r == s[..|r|]
    ensures forall i :: |r| <= i < |s| ==> IsSpace(s[i])
    ensures r == [] || !IsSpace(r[|r| - 1])
  {
    if |s| > 0 && IsSpace(s[|s| - 1]) then TrimRight(s[..|s| - 1]) else s
  }

  /** Nothing but whitespace (or nothing at all). */
  predicate IsBlank(s: string) {
    forall i :: 0 <= i < |s| ==> IsSpace(s[i])
  }

  /** Trimming the left end leaves nothing exactly when the string is blank. */
  lemma {:induction false} TrimLeftBlank(s: string)
    ensures TrimLeft(s) == [] <==> IsBlank(s)
  {
    var t := TrimLeft(s);
    if t != [] {
      assert t[0] == s[|s| - |t|];
    }
  }

  /** Trimming the right end of a string that starts with a non-space keeps that start. */
  lemma {:induction false} TrimRightKeepsHead(t: string)
    requires t == [] || !IsSpace(t[0])
    ensures var r := TrimRight(t); (r == [] <==> t == []) && (r != [] ==> r[0] == t[0])
  {
  }

  /** `str.strip()`: the input without its leading and trailing whitespace. */
  function Strip(s: string): (r: string)
    ensures r == [] || (!IsSpace(r[0]) && !IsSpace(r[|r| - 1]))
    ensures r == [] <==> IsBlank(s)
  {
    TrimLeftBlank(s);
    TrimRightKeepsHead(TrimLeft(s));
    TrimRight(TrimLeft(s))
  }

  /** The whitespace cut off on the left is a blank prefix. */
  lemma {:induction false} TrimLeftPrefix(s: string)
    ensures IsBlank(s[..|s| - |TrimLeft(s)|])
  {
    var prefix := s[..|s| - |TrimLeft(s)|];
    forall k | 0 <= k < |prefix| ensures IsSpace(prefix[k]) {
      assert prefix[k] == s[k];
    }
  }

  /** The whitespace cut off on the right is a blank suffix. */
  lemma {:induction false} TrimRightSuffix(t: string)
    ensures IsBlank(t[|TrimRight(t)|..])
  {
    var suffix := t[|TrimRight(t)|..];
    forall k | 0 <= k < |suffix| ensures IsSpace(suffix[k]) {
      assert suffix[k] == t[|TrimRight(t)| + k];
    }
  }

  /**
   * The stripped text is a slice of the input with only whitespace before and
   * after it; with `Strip`'s contract (no whitespace at its ends) this
   * determines it.
   */
  lemma {:induction false} StripIsSlice(s: string)
    ensures exists i :: 0 <= i <= |s| - |Strip(s)| && Strip(s) == s[i..i + |Strip(s)|] &&
                        IsBlank(s[..i]) && IsBlank(s[i + |Strip(s)|..])
  {
    var t := TrimLeft(s);
    var r, i := TrimRight(t), |s| - |t|;
    assert r == Strip(s);
    TrimLeftPrefix(s);
    TrimRightSuffix(t);
    assert t == s[i..] && r == t[..|r|];
    SliceOfSuffix(s, i, |r|);
    assert IsBlank(s[..i]) && IsBlank(s[i + |r|..]);
  }

  /** Slicing a suffix is slicing the string further on. */
  lemma {:induction false} SliceOfSuffix(s: string, i: nat, n: nat)
    requires i + n <= |s|
    ensures s[i..][..n] == s[i..i + n] && s[i..][n..] == s[i + n..]
  {
  }

  /** A tidy string has nothing to strip. */
  lemma StripTidy(s: string)
    requires Tidy(s)
    ensures Strip(s) == s
  {
    if s != [] {
      assert !IsSpace(s[0]);
      assert !IsSpace(s[|s| - 1]);
    }
  }

  // ---------------------------------------------------------------------
  // `_remove_articles`: `re.sub(r"\b(a|an|the)\b", " ", text)`
  // ---------------------------------------------------------------------

  /**
   * The regex class `\w` as a predicate on characters. The scan below takes
   * the class as a parameter, so that its proofs do not depend on how the
   * class is made up.
   */
  function WordClass(o: TextOracle): char -> bool {
    c => IsWordChar(o, c)
  }

  /** Every letter of the article literals belongs to the class. */
  predicate ArticleLettersAreWord(word: char -> bool) {
    word('a') && word('n') && word('t') && word('h') && word('e')
  }

  /** Position `j` holds a word character (positions outside `s` do not). */
  predicate WordAt(word: char -> bool, s: string, j: int) {
    0 <= j < |s| && word(s[j])
  }

  /** `\b` at position `i`: one of the characters around `i` is a word character and the other is not. */
  predicate Boundary(word: char -> bool, s: string, i: int) {
    WordAt(word, s, i - 1) != WordAt(word, s, i)
  }

  predicate LiteralAt(s: string, i: nat, lit: string) {
    i + |lit| <= |s| && s[i..i + |lit|] == lit
  }

  predicate IsArticle(w: string) {
    w == "a" || w == "an" || w == "the"
  }

  /** `\b(a|an|the)\b` matches at `i` with the alternative `lit`. */
  predicate ArticleMatch(word: char -> bool, s: string, i: nat, lit: string) {
    IsArticle(lit) && Boundary(word, s, i) && LiteralAt(s, i, lit) && Boundary(word, s, i + |lit|)
  }

  /**
   * The length of the match of `\b(a|an|the)\b` starting at `i`, or 0 when
   * there is none; the alternatives are tried in the order of the pattern.
   */
  function ArticleAt(word: char -> bool, s: string, i: nat): (n: nat)
    ensures n <= 3 && (n > 0 ==> i + n <= |s|)
  {
    if !Boundary(word, s, i) then 0
    else if LiteralAt(s, i, "a") && Boundary(word, s, i + 1) then 1
    else if LiteralAt(s, i, "an") && Boundary(word, s, i + 2) then 2
    else if LiteralAt(s, i, "the") && Boundary(word, s, i + 3) then 3
    else 0
  }

  /**
   * `ArticleAt` finds the match of the pattern: a positive length is the
   * length of a match, and every match makes it positive and no longer than
   * that match ("a" is tried before "an").
   */
  lemma {:induction false} ArticleAtMatch(word: char -> bool, s: string, i: nat)
    ensures var n := ArticleAt(word, s, i);
      (n > 0 ==> ArticleMatch(word, s, i, s[i..i + n])) &&
      forall lit {:trigger ArticleMatch(word, s, i, lit)} :: ArticleMatch(word, s, i, lit) ==> 0 < n <= |lit|
  {
  }

  /**
   * `re.sub(pattern, " ", s)` from position `i`, for a pattern whose match at
   * position `p` of `s` has length `matcher(s, p)` (0 when there is none): the
   * text is scanned left to right, each match becomes one space and the scan
   * resumes after it; at any other position the character is kept.
   */
  function Sub(matcher: (string, nat) -> nat, s: string, i: nat): (r: string)
    requires i <= |s|
    ensures |r| <= |s| - i
    decreases |s| - i
  {
    if i == |s| then []
    else
      var n := matcher(s, i);
      if 0 < n && i + n <= |s| then " " + Sub(matcher, s, i + n)
      else [s[i]] + Sub(matcher, s, i + 1)
  }

  /** The matcher of `\b(a|an|the)\b`. */
  function ArticleMatcher(word: char -> bool): (string, nat) -> nat {
    (s: string, i: nat) => ArticleAt(word, s, i)
  }

  /** `_remove_articles`. The result is never longer than the input. */
  function RemoveArticles(o: TextOracle, text: string): (r: string)
    ensures |r| <= |text|
  {
    Sub(ArticleMatcher(WordClass(o)), text, 0)
  }

  /** From position `k` on, the matcher sees in `s` the matches it sees in `t`. */
  predicate MatchesAgreeAfter(matcher: (string, nat) -> nat, s: string, t: string, k: nat) {
    forall p :: 0 <= p < |t| ==> matcher(s, k + p) == matcher(t, p)
  }

  /** Before `|x|` the matcher sees in `s` the matches it sees in `x`, and none of them runs past `x`. */
  predicate MatchesStayBefore(matcher: (string, nat) -> nat, s: string, x: string) {
    forall p :: 0 <= p < |x| ==> matcher(s, p) == matcher(x, p) && matcher(x, p) <= |x| - p
  }

  /** Two scans that agree at one position, and on what follows the step taken there, agree there. */
  lemma {:induction false} SubStep(matcher: (string, nat) -> nat, s: string, i: nat, t: string, j: nat)
    requires i < |s| && j < |t| && s[i] == t[j] && matcher(s, i) == matcher(t, j)
    requires matcher(s, i) > 0 ==> (i + matcher(s, i) <= |s| <==> j + matcher(s, i) <= |t|)
    requires matcher(s, i) > 0 && i + matcher(s, i) <= |s| ==>
      Sub(matcher, s, i + matcher(s, i)) == Sub(matcher, t, j + matcher(s, i))
    requires !(matcher(s, i) > 0 && i + matcher(s, i) <= |s|) ==> Sub(matcher, s, i + 1) == Sub(matcher, t, j + 1)
    ensures Sub(matcher, s, i) == Sub(matcher, t, j)
  {
    var n := matcher(s, i);
    if 0 < n && i + n <= |s| {
      assert Sub(matcher, s, i) == " " + Sub(matcher, s, i + n);
      assert Sub(matcher, t, j) == " " + Sub(matcher, t, j + n);
    } else {
      assert Sub(matcher, s, i) == [s[i]] + Sub(matcher, s, i + 1);
      assert Sub(matcher, t, j) == [t[j]] + Sub(matcher, t, j + 1);
    }
  }

  /**
   * A scan that starts at position `k` of `s` is the scan of the rest `t` of
   * the text (given position by position) when the matcher sees the same
   * matches in both.
   */
  lemma {:induction false} SubAfter(matcher: (string, nat) -> nat, s: string, t: string, k: nat, j: nat)
    requires k <= |s| && |t| == |s| - k && j <= |t|
    requires forall p :: 0 <= p < |t| ==> t[p] == s[k + p]
    requires MatchesAgreeAfter(matcher, s, t, k)
    ensures Sub(matcher, s, k + j) == Sub(matcher, t, j)
    decreases |t| - j
  {
    if j < |t| {
      var n := matcher(t, j);
      assert matcher(s, k + j) == n;
      if 0 < n && j + n <= |t| {
        SubAfter(matcher, s, t, k, j + n);
        assert k + j + n == k + (j + n);
      } else {
        SubAfter(matcher, s, t, k, j + 1);
        assert k + j + 1 == k + (j + 1);
      }
      assert t[j] == s[k + j];
      SubStep(matcher, s, k + j, t, j);
    }
  }

  /**
   * One step of the scan of a text `s` that starts with `x`: where the
   * matcher sees the same match in both and it ends inside `x`, whatever
   * the scan of `s` adds to that of `x` after the step, it adds at `i`.
   */
  lemma {:induction false} SubBeforeStep(matcher: (string, nat) -> nat, s: string, x: string, i: nat, rest: string)
    requires i < |x| <= |s| && s[i] == x[i] && matcher(s, i) == matcher(x, i) && matcher(x, i) <= |x| - i
    requires matcher(x, i) > 0 ==> Sub(matcher, s, i + matcher(x, i)) == Sub(matcher, x, i + matcher(x, i)) + rest
    requires matcher(x, i) == 0 ==> Sub(matcher, s, i + 1) == Sub(matcher, x, i + 1) + rest
    ensures Sub(matcher, s, i) == Sub(matcher, x, i) + rest
  {
    var n := matcher(x, i);
    if n > 0 {
      var mid := Sub(matcher, x, i + n);
      assert Sub(matcher, s, i) == " " + (mid + rest);
      assert Sub(matcher, x, i) == " " + mid;
      assert " " + (mid + rest) == (" " + mid) + rest;
    } else {
      var mid := Sub(matcher, x, i + 1);
      assert Sub(matcher, s, i) == [x[i]] + (mid + rest);
      assert Sub(matcher, x, i) == [x[i]] + mid;
      assert [x[i]] + (mid + rest) == ([x[i]] + mid) + rest;
    }
  }

  /**
   * When no match starting before `|x|` reaches past `x`, and the matcher sees
   * the same matches there in `x` and in `x + [c] + y`, the scan of
   * `x + [c] + y` is the scan of `x` followed by the scan from `|x|` on.
   */
  lemma {:induction false} SubBefore(matcher: (string, nat) -> nat, x: string, c: char, y: string, i: nat)
    requires i <= |x|
    requires MatchesStayBefore(matcher, x + [c] + y, x)
    ensures Sub(matcher, x + [c] + y, i) == Sub(matcher, x, i) + Sub(matcher, x + [c] + y, |x|)
    decreases |x| - i
  {
    var s := x + [c] + y;
    var rest := Sub(matcher, s, |x|);
    if i < |x| {
      var n := matcher(x, i);
      assert matcher(s, i) == n && n <= |x| - i;
      assert s[i] == x[i];
      if n > 0 {
        SubBefore(matcher, x, c, y, i + n);
      } else {
        SubBefore(matcher, x, c, y, i + 1);
      }
      SubBeforeStep(matcher, s, x, i, rest);
    } else {
      assert Sub(matcher, x, i) == [];
      assert [] + rest == rest;
    }
  }

  /** An article literal found in the text consists of word characters. */
  lemma {:induction false} ArticleLiteralWord(word: char -> bool, s: string, i: nat, lit: string)
    requires ArticleLettersAreWord(word) && IsArticle(lit) && LiteralAt(s, i, lit)
    ensures forall p :: i <= p < i + |lit| ==> word(s[p])
  {
    forall p | i <= p < i + |lit| ensures word(s[p]) {
      assert s[p] == s[i..i + |lit|][p - i];
    }
  }

  /** No article starts at a non-word character. */
  lemma {:induction false} ArticleAtNonWord(word: char -> bool, s: string, i: nat)
    requires ArticleLettersAreWord(word) && i < |s| && !word(s[i])
    ensures ArticleAt(word, s, i) == 0
  {
    var n := ArticleAt(word, s, i);
    if n > 0 {
      ArticleAtMatch(word, s, i);
      ArticleLiteralWord(word, s, i, s[i..i + n]);
    }
  }

  /**
   * `t` is what follows the first `k` characters of `s`, stated position by
   * position, and the character just before it is not a word character.
   */
  predicate ShiftedAfterNonWord(word: char -> bool, s: string, t: string, k: nat) {
    0 < k <= |s| && !word(s[k - 1]) && |t| == |s| - k &&
    forall p :: 0 <= p < |t| ==> t[p] == s[k + p]
  }

  /** Behind a non-word character, `\b` in the rest of the text is `\b` in that rest alone. */
  lemma {:induction false} BoundaryAfter(word: char -> bool, s: string, t: string, k: nat, p: nat)
    requires ShiftedAfterNonWord(word, s, t, k)
    ensures Boundary(word, s, k + p) == Boundary(word, t, p)
  {
    if p > 0 && p - 1 < |t| {
      assert s[k + p - 1] == t[p - 1];
    }
    if p < |t| {
      assert s[k + p] == t[p];
    }
  }

  lemma {:induction false} LiteralAfter(word: char -> bool, s: string, t: string, k: nat, j: nat, lit: string)
    requires ShiftedAfterNonWord(word, s, t, k)
    ensures LiteralAt(s, k + j, lit) == LiteralAt(t, j, lit)
  {
    if j + |lit| <= |t| {
      assert s[k + j..k + j + |lit|] == t[j..j + |lit|] by {
        forall q | j <= q < j + |lit| ensures s[k + q] == t[q] {
        }
      }
    }
  }

  lemma {:induction false} ArticleAtAfter(word: char -> bool, s: string, t: string, k: nat, j: nat)
    requires ShiftedAfterNonWord(word, s, t, k)
    ensures ArticleAt(word, s, k + j) == ArticleAt(word, t, j)
    ensures ArticleMatcher(word)(s, k + j) == ArticleMatcher(word)(t, j)
  {
    BoundaryAfter(word, s, t, k, j);
    BoundaryAfter(word, s, t, k, j + 1);
    BoundaryAfter(word, s, t, k, j + 2);
    BoundaryAfter(word, s, t, k, j + 3);
    LiteralAfter(word, s, t, k, j, "a");
    LiteralAfter(word, s, t, k, j, "an");
    LiteralAfter(word, s, t, k, j, "the");
  }

  /** Up to a non-word character `c`, `\b` is the same in `x` and in `x + [c] + y`. */
  lemma {:induction false} BoundaryBefore(word: char -> bool, x: string, c: char, y: string, p: nat)
    requires !word(c) && p <= |x|
    ensures Boundary(word, x + [c] + y, p) == Boundary(word, x, p)
  {
    var s := x + [c] + y;
    if 0 < p {
      assert s[p - 1] == x[p - 1];
    }
    if p < |x| {
      assert s[p] == x[p];
    } else {
      assert s[p] == c;
    }
  }

  lemma {:induction false} LiteralBefore(word: char -> bool, x: string, c: char, y: string, i: nat, lit: string)
    requires ArticleLettersAreWord(word) && !word(c) && i < |x| && IsArticle(lit)
    ensures LiteralAt(x + [c] + y, i, lit) == LiteralAt(x, i, lit)
  {
    var s := x + [c] + y;
    if i + |lit| <= |x| {
      assert s[i..i + |lit|] == x[i..i + |lit|];
    } else {
      assert s[|x|] == c;
      if LiteralAt(s, i, lit) {
        ArticleLiteralWord(word, s, i, lit);
      }
    }
  }

  /** Before a non-word character `c` the matches in `x + [c] + y` are those in `x`. */
  lemma {:induction false} ArticleAtBefore(word: char -> bool, x: string, c: char, y: string, i: nat)
    requires ArticleLettersAreWord(word) && !word(c) && i < |x|
    ensures ArticleAt(word, x + [c] + y, i) == ArticleAt(word, x, i)
  {
    BoundaryBefore(word, x, c, y, i);
    LiteralBefore(word, x, c, y, i, "a");
    LiteralBefore(word, x, c, y, i, "an");
    LiteralBefore(word, x, c, y, i, "the");
    if i + 1 <= |x| {
      BoundaryBefore(word, x, c, y, i + 1);
    }
    if i + 2 <= |x| {
      BoundaryBefore(word, x, c, y, i + 2);
    }
    if i + 3 <= |x| {
      BoundaryBefore(word, x, c, y, i + 3);
    }
  }

  /** Where nothing matches, the scan keeps the character and carries on after it. */
  lemma {:induction false} SubKeep(matcher: (string, nat) -> nat, s: string, i: nat)
    requires i < |s| && matcher(s, i) == 0
    ensures Sub(matcher, s, i) == [s[i]] + Sub(matcher, s, i + 1)
  {
  }

  /** The scan of `x + [c] + y` after `c` is the scan of `y` when the matcher sees the same matches there. */
  lemma {:induction false} SubAfterAppend(matcher: (string, nat) -> nat, x: string, c: char, y: string)
    requires MatchesAgreeAfter(matcher, x + [c] + y, y, |x| + 1)
    ensures Sub(matcher, x + [c] + y, |x| + 1) == Sub(matcher, y, 0)
  {
    var s, k := x + [c] + y, |x| + 1;
    forall p | 0 <= p < |y| ensures y[p] == s[k + p] {
    }
    SubAfter(matcher, s, y, k, 0);
  }

  /**
   * The scan of `x + [c] + y` splits at `c` when no match reaches past `x`,
   * none starts at `c`, and the matches the matcher sees after `c` are those
   * it sees in `y`.
   */
  lemma {:induction false} SubSplit(matcher: (string, nat) -> nat, x: string, c: char, y: string)
    requires MatchesStayBefore(matcher, x + [c] + y, x)
    requires matcher(x + [c] + y, |x|) == 0
    requires MatchesAgreeAfter(matcher, x + [c] + y, y, |x| + 1)
    ensures Sub(matcher, x + [c] + y, 0) == Sub(matcher, x, 0) + [c] + Sub(matcher, y, 0)
  {
    var s := x + [c] + y;
    SubBefore(matcher, x, c, y, 0);
    SubKeep(matcher, s, |x|);
    assert s[|x|] == c;
    SubAfterAppend(matcher, x, c, y);
    var left, right := Sub(matcher, x, 0), Sub(matcher, y, 0);
    assert left + ([c] + right) == left + [c] + right;
  }

  /** Before a non-word character `c` the matcher sees in `x + [c] + y` what it sees in `x`. */
  lemma {:induction false} ArticleMatcherBefore(word: char -> bool, x: string, c: char, y: string)
    requires ArticleLettersAreWord(word) && !word(c)
    ensures MatchesStayBefore(ArticleMatcher(word), x + [c] + y, x)
  {
    forall p | 0 <= p < |x|
      ensures ArticleMatcher(word)(x + [c] + y, p) == ArticleMatcher(word)(x, p) && ArticleMatcher(word)(x, p) <= |x| - p
    {
      ArticleAtBefore(word, x, c, y, p);
    }
  }

  /** Behind a non-word character the matcher sees in the rest of the text what it sees in that rest alone. */
  lemma {:induction false} ArticleMatcherShifted(word: char -> bool, s: string, t: string, k: nat)
    requires ShiftedAfterNonWord(word, s, t, k)
    ensures MatchesAgreeAfter(ArticleMatcher(word), s, t, k)
  {
    forall p | 0 <= p < |t| ensures ArticleMatcher(word)(s, k + p) == ArticleMatcher(word)(t, p) {
      ArticleAtAfter(word, s, t, k, p);
    }
  }

  /** After a non-word character `c` the matcher sees in `x + [c] + y` what it sees in `y`. */
  lemma {:induction false} ArticleMatcherAfter(word: char -> bool, x: string, c: char, y: string)
    requires !word(c)
    ensures MatchesAgreeAfter(ArticleMatcher(word), x + [c] + y, y, |x| + 1)
  {
    var s := x + [c] + y;
    assert s[|x|] == c;
    forall p | 0 <= p < |y| ensures y[p] == s[|x| + 1 + p] {
    }
    ArticleMatcherShifted(word, s, y, |x| + 1);
  }

  /**
   * An article never spans a non-word character, so the removal splits at
   * one: the text before it and the text after it are treated on their own.
   * With `RemoveArticlesOfWord` this fixes the result on every input (`RemoveArticlesRef`).
   */
  lemma {:induction false} RemoveArticlesSplit(o: TextOracle, x: string, c: char, y: string)
    requires !IsWordChar(o, c)
    ensures RemoveArticles(o, x + [c] + y) == RemoveArticles(o, x) + [c] + RemoveArticles(o, y)
  {
    var word := WordClass(o);
    assert ArticleLettersAreWord(word) && !word(c);
    ArticleMatcherBefore(word, x, c, y);
    assert x + [c] + y == x + [c] + y && (x + [c] + y)[|x|] == c;
    ArticleAtNonWord(word, x + [c] + y, |x|);
    ArticleMatcherAfter(word, x, c, y);
    SubSplit(ArticleMatcher(word), x, c, y);
  }

  /** Every character of `s` is a word character. */
  predicate AllWordChars(o: TextOracle, s: string) {
    forall i :: 0 <= i < |s| ==> IsWordChar(o, s[i])
  }

  /** Inside a run of word characters there is no `\b`, so nothing matches. */
  lemma {:induction false} SubInsideWord(word: char -> bool, s: string, i: nat)
    requires forall p :: 0 <= p < |s| ==> word(s[p])
    requires 0 < i <= |s|
    ensures Sub(ArticleMatcher(word), s, i) == s[i..]
    decreases |s| - i
  {
    if i < |s| {
      assert WordAt(word, s, i - 1) && WordAt(word, s, i);
      SubInsideWord(word, s, i + 1);
      assert s[i..] == [s[i]] + s[i + 1..];
    }
  }

  /**
   * Inside a run of word characters `\b` holds only at the two ends, so such a
   * token loses an article only when the whole token is one.
   */
  lemma RemoveArticlesOfWord(o: TextOracle, w: string)
    requires AllWordChars(o, w)
    ensures RemoveArticles(o, w) == if IsArticle(w) then " " else w
  {
    var word := WordClass(o);
    assert forall p :: 0 <= p < |w| ==> word(w[p]);
    if |w| > 0 {
      assert Boundary(word, w, 0) by { assert WordAt(word, w, 0); }
      SubInsideWord(word, w, 1);
      var n := ArticleAt(word, w, 0);
      if n == 0 {
        assert IsArticle(w) ==> Boundary(word, w, |w|) by {
          assert WordAt(word, w, |w| - 1);
        }
        assert w[0..|w|] == w;
        assert w == [w[0]] + w[1..];
      } else {
        assert n == |w|;
        SubInsideWord(word, w, n);
        assert w[0..n] == w;
      }
    }
  }

  /** The length of the run of word characters that starts the text. */
  function WordRun(o: TextOracle, s: string): (k: nat)
    ensures k <= |s| && AllWordChars(o, s[..k])
    ensures k == |s| || !IsWordChar(o, s[k])
  {
    if |s| == 0 || !IsWordChar(o, s[0]) then 0
    else
      var k := 1 + WordRun(o, s[1..]);
      assert forall i :: 1 <= i < k ==> s[..k][i] == s[1..][..k - 1][i - 1];
      k
  }

  /**
   * An independent reading of the article substitution: cut the text at each
   * non-word character and replace each run of word characters that is an
   * article by one space.
   */
  function ArticlesRef(o: TextOracle, s: string): string
    decreases |s|
  {
    var k := WordRun(o, s);
    var w := s[..k];
    (if IsArticle(w) then " " else w) + (if k == |s| then [] else [s[k]] + ArticlesRef(o, s[k + 1..]))
  }

  /** A word followed by a non-word character: the word is settled and the rest is handled alone. */
  lemma {:induction false} RemoveArticlesWordThen(o: TextOracle, w: string, c: char, rest: string)
    requires AllWordChars(o, w) && !IsWordChar(o, c)
    ensures RemoveArticles(o, w + [c] + rest) == (if IsArticle(w) then " " else w) + [c] + RemoveArticles(o, rest)
  {
    RemoveArticlesSplit(o, w, c, rest);
    RemoveArticlesOfWord(o, w);
  }

  /** The regular-expression substitution agrees with the reference reading on every text. */
  lemma {:induction false} RemoveArticlesRef(o: TextOracle, s: string)
    ensures RemoveArticles(o, s) == ArticlesRef(o, s)
    decreases |s|
  {
    var k := WordRun(o, s);
    var w := s[..k];
    if k == |s| {
      assert w == s;
      RemoveArticlesOfWord(o, w);
    } else {
      var c, rest := s[k], s[k + 1..];
      var head := if IsArticle(w) then " " else w;
      assert s == w + [c] + rest;
      calc {
        RemoveArticles(o, s);
        { RemoveArticlesWordThen(o, w, c, rest); }
        head + [c] + RemoveArticles(o, rest);
        { RemoveArticlesRef(o, rest); }
        head + ([c] + ArticlesRef(o, rest));
        ArticlesRef(o, s);
      }
    }
  }

  // ---------------------------------------------------------------------
  // `_normalize`
  // ---------------------------------------------------------------------

  /** The per-token pipeline inside `_normalize`'s first comprehension. */
  function NormalizeToken(o: TextOracle, token: string): (r: string)
    ensures Tidy(r)
  {
    WhiteSpaceFix(RemoveArticles(o, FixNumber(o, RemovePunc(o, Lower(o, token)))))
  }

  /**
   * The second comprehension: keeps the tokens whose `strip()` is non-empty,
   * that is (by `Strip`'s contract) the tokens that are not blank.
   */
  function KeepNonBlank(ts: seq<string>): (r: seq<string>)
    ensures forall k :: 0 <= k < |r| ==> !IsBlank(r[k])
    ensures forall t :: t in r ==> t in ts
    ensures (forall k :: 0 <= k < |ts| ==> IsBlank(ts[k])) ==> r == []
  {
    if |ts| == 0 then []
    else (if !IsBlank(ts[0]) then [ts[0]] else []) + KeepNonBlank(ts[1..])
  }

  /** The filter distributes over concatenation, so the kept tokens stay in their order. */
  lemma {:induction false} KeepNonBlankAppend(a: seq<string>, b: seq<string>)
    ensures KeepNonBlank(a + b) == KeepNonBlank(a) + KeepNonBlank(b)
  {
    if |a| > 0 {
      KeepNonBlankAppend(a[1..], b);
      assert (a + b)[0] == a[0] && (a + b)[1..] == a[1..] + b;
      var head := if !IsBlank(a[0]) then [a[0]] else [];
      assert KeepNonBlank(a + b) == head + KeepNonBlank(a[1..] + b);
      assert KeepNonBlank(a) == head + KeepNonBlank(a[1..]);
    } else {
      assert a + b == b;
    }
  }

  /** One token is kept exactly when it is not blank. */
  lemma KeepNonBlankToken(t: string)
    ensures KeepNonBlank([t]) == if IsBlank(t) then [] else [t]
  {
    assert [t][1..] == [];
  }

  /** Every token that is not blank is kept. */
  lemma KeepNonBlankKeeps(ts: seq<string>)
    ensures forall k :: 0 <= k < |ts| && !IsBlank(ts[k]) ==> ts[k] in KeepNonBlank(ts)
  {
    forall k | 0 <= k < |ts| && !IsBlank(ts[k])
      ensures ts[k] in KeepNonBlank(ts)
    {
      assert ts == ts[..k] + ([ts[k]] + ts[k + 1..]);
      KeepNonBlankAppend(ts[..k], [ts[k]] + ts[k + 1..]);
      KeepNonBlankAppend([ts[k]], ts[k + 1..]);
      KeepNonBlankToken(ts[k]);
    }
  }

  /**
   * The first comprehension of `_normalize`: each piece of `re.split(" |-")`
   * through the per-token pipeline, one normalised token per piece.
   */
  function NormalizedTokens(o: TextOracle, answer: string): (ts: seq<string>)
    ensures |ts| == |Tokenize(answer)|
    ensures forall k :: 0 <= k < |ts| ==> Tidy(ts[k])
  {
    var pieces := Tokenize(answer);
    seq(|pieces|, i requires 0 <= i < |pieces| => NormalizeToken(o, pieces[i]))
  }

  /**
   * `_normalize`. The result has no whitespace at either end and every
   * whitespace character in it is a single space between two words.
   */
  function Normalize(o: TextOracle, answer: string): (r: string)
    ensures Tidy(r)
  {
    var kept := KeepNonBlank(NormalizedTokens(o, answer));
    assert forall k :: 0 <= k < |kept| ==> kept[k] != [] && Tidy(kept[k]) by {
      forall k | 0 <= k < |kept| ensures kept[k] != [] && Tidy(kept[k]) {
        assert kept[k] in kept;
      }
    }
    JoinTidy(kept);
    StripTidy(JoinSpace(kept));
    Strip(JoinSpace(kept))
  }

  /** What tidiness means for ordinary spaces. */
  lemma TidyLayout(s: string)
    requires Tidy(s)
    ensures s == [] || (s[0] != ' ' && s[|s| - 1] != ' ')
    ensures forall i :: 0 <= i < |s| - 1 ==> !(s[i] == ' ' && s[i + 1] == ' ')
  {
    assert IsSpace(' ');
    forall i | 0 <= i < |s| - 1 ensures !(s[i] == ' ' && s[i + 1] == ' ') {
      assert !(IsSpace(s[i]) && IsSpace(s[i + 1]));
    }
  }

  /** The layout promised by `_normalize`, spelled out. */
  lemma NormalizeLayout(o: TextOracle, answer: string)
    ensures var r := Normalize(o, answer);
      (r == [] || (r[0] != ' ' && r[|r| - 1] != ' ')) &&
      forall i :: 0 <= i < |r| - 1 ==> !(r[i] == ' ' && r[i + 1] == ' ')
  {
    TidyLayout(Normalize(o, answer));
  }

  /** An answer every token of which normalises to blank normalises to "". */
  lemma NormalizeAllBlank(o: TextOracle, answer: string)
    requires forall k :: 0 <= k < |Tokenize(answer)| ==> IsBlank(NormalizeToken(o, Tokenize(answer)[k]))
    ensures Normalize(o, answer) == ""
  {
    var ts := NormalizedTokens(o, answer);
    assert forall k :: 0 <= k < |ts| ==> IsBlank(ts[k]);
  }

  /** A token that is an article in any letter case normalises to blank. */
  lemma ArticleTokenIsBlank(o: TextOracle, token: string)
    requires IsAscii(token) && IsArticle(Lower(o, token))
    requires !o.isNumber(Lower(o, token))
    ensures NormalizeToken(o, token) == ""
  {
    var w := Lower(o, token);
    assert forall i :: 0 <= i < |w| ==> !IsPunct(w[i]) && IsWordChar(o, w[i]);
    DropPunctKeeps(w);
    RemoveArticlesOfWord(o, w);
    assert Words(" ") == Words(" "[1..]);
  }

  /** "the", "a" and "an" (in any letter case) normalise to the empty string. */
  lemma NormalizeArticle(o: TextOracle, answer: string)
    requires IsAscii(answer) && IsArticle(Lower(o, answer))
    requires !o.isNumber(Lower(o, answer))
    ensures Normalize(o, answer) == ""
  {
    assert forall i :: 0 <= i < |answer| ==> !IsTokenSep(answer[i]) by {
      var w := Lower(o, answer);
      forall i | 0 <= i < |answer| ensures !IsTokenSep(answer[i]) {
        assert w[i] == AsciiLowerChar(answer[i]);
      }
    }
    TokenizeRoundTrip(answer);
    SeparatorsEmpty(answer);
    assert Tokenize(answer) == [answer];
    ArticleTokenIsBlank(o, answer);
    NormalizeAllBlank(o, answer);
  }

  lemma {:induction false} SeparatorsEmpty(s: string)
    requires forall i :: 0 <= i < |s| ==> !IsTokenSep(s[i])
    ensures Separators(s) == []
  {
    if |s| > 0 {
      SeparatorsEmpty(s[1..]);
    }
  }

  /** An ASCII letter or digit: the characters of `\w` that are not punctuation. */
  predicate IsAlnum(c: char) {
    ('0' <= c <= '9') || ('A' <= c <= 'Z') || ('a' <= c <= 'z')
  }

  /** Lowering a word of ASCII letters and digits keeps it one. */
  lemma LowerAlnum(o: TextOracle, word: string)
    requires forall i :: 0 <= i < |word| ==> IsAlnum(word[i])
    ensures var w := Lower(o, word); |w| == |word| && forall i :: 0 <= i < |w| ==> IsAlnum(w[i])
  {
    assert IsAscii(word);
  }

  /** A single field is its own whitespace fix. */
  lemma WhiteSpaceFixField(w: string)
    requires IsField(w)
    ensures WhiteSpaceFix(w) == w
  {
    WordsAfterField(w, []);
    assert w + [] == w;
  }

  /**
   * A word of ASCII letters and digits that lowers to neither an article nor
   * a number comes out of the per-token pipeline as its lower-case form.
   */
  lemma NormalizeTokenWord(o: TextOracle, word: string)
    requires word != [] && forall i :: 0 <= i < |word| ==> IsAlnum(word[i])
    requires !IsArticle(Lower(o, word)) && !o.isNumber(Lower(o, word))
    ensures NormalizeToken(o, word) == Lower(o, word)
  {
    var w := Lower(o, word);
    LowerAlnum(o, word);
    assert forall i :: 0 <= i < |w| ==> !IsPunct(w[i]) && IsWordChar(o, w[i]) && !IsSpace(w[i]);
    DropPunctKeeps(w);
    assert RemovePunc(o, w) == w && FixNumber(o, w) == w;
    RemoveArticlesOfWord(o, w);
    WhiteSpaceFixField(w);
  }

  /**
   * A single word of ASCII letters and digits that lowers to neither an
   * article nor a number normalises to its lower-case form.
   */
  lemma NormalizeWord(o: TextOracle, word: string)
    requires word != [] && forall i :: 0 <= i < |word| ==> IsAlnum(word[i])
    requires !IsArticle(Lower(o, word)) && !o.isNumber(Lower(o, word))
    ensures Normalize(o, word) == Lower(o, word)
  {
    var w := Lower(o, word);
    assert forall i :: 0 <= i < |word| ==> !IsTokenSep(word[i]);
    SeparatorsEmpty(word);
    TokenizeRoundTrip(word);
    assert Tokenize(word) == [word];
    NormalizeTokenWord(o, word);
    assert NormalizedTokens(o, word) == [w];
    assert !IsBlank(w) by { assert w[0] == AsciiLowerChar(word[0]); }
    KeepNonBlankToken(w);
    StripTidy(w);
  }
}
