/**
 * The identifier gate of the briefing service: deciding whether a text is a
 * list of 4-letter ICAO station codes, and normalising it into the ordered
 * list of codes every later step works on.
 */
module Icao {
  import opened Strings

  /** A character the pattern `[\s,]` matches. */
  predicate IsSeparator(c: char) {
    IsSpace(c) || c == ','
  }

  predicate NoSeparator(s: string) {
    forall i :: 0 <= i < |s| ==> !IsSeparator(s[i])
  }

  predicate AllSeparators(s: string) {
    forall i :: 0 <= i < |s| ==> IsSeparator(s[i])
  }

  /** No lower-case ASCII letter: what `upper()` leaves unchanged. */
  predicate IsUpperText(s: string) {
    forall i :: 0 <= i < |s| ==> !('a' <= s[i] <= 'z')
  }

  /** Length of the separator-free prefix of `s`. */
  function WordLength(s: string): (n: nat)
    ensures n <= |s|
    ensures n < |s| ==> IsSeparator(s[n])
  {
    if s == [] || IsSeparator(s[0]) then 0 else 1 + WordLength(s[1..])
  }

  /** The word before the first separator holds no separator. */
  lemma {:induction false} WordLengthWord(s: string)
    ensures forall i :: 0 <= i < WordLength(s) ==> !IsSeparator(s[i])
  {
    if s != [] && !IsSeparator(s[0]) {
      WordLengthWord(s[1..]);
      forall i | 1 <= i < WordLength(s) ensures !IsSeparator(s[i]) { assert s[i] == s[1..][i - 1]; }
    }
  }

  /** Length of the run of separators that starts `s`. */
  function SeparatorRun(s: string): (n: nat)
    ensures n <= |s|
    ensures n < |s| ==> !IsSeparator(s[n])
  {
    if s == [] || !IsSeparator(s[0]) then 0 else 1 + SeparatorRun(s[1..])
  }

  /** The run that starts `s` is all separators. */
  lemma {:induction false} SeparatorRunRun(s: string)
    ensures forall i :: 0 <= i < SeparatorRun(s) ==> IsSeparator(s[i])
  {
    if s != [] && IsSeparator(s[0]) {
      SeparatorRunRun(s[1..]);
      forall i | 1 <= i < SeparatorRun(s) ensures IsSeparator(s[i]) { assert s[i] == s[1..][i - 1]; }
    }
  }

  /** `re.split(r"[\s,]+", s)`: the pieces between maximal runs of separators.
      A leading or a trailing run gives an empty piece, as in Python. */
  function SplitRuns(s: string): (r: seq<string>)
    ensures |r| >= 1
    decreases |s|
  {
    var w := WordLength(s);
    if w == |s| then [s]
    else
      var k := SeparatorRun(s[w..]);
      [s[..w]] + SplitRuns(s[w + k..])
  }

  /** `[p for p in parts if p]` */
  function NonEmpty(parts: seq<string>): seq<string> {
    if parts == [] then []
    else (if parts[0] == "" then [] else [parts[0]]) + NonEmpty(parts[1..])
  }

  /** The non-empty pieces of `s` between runs of whitespace and commas. */
  function Tokens(s: string): seq<string> {
    NonEmpty(SplitRuns(s))
  }

  /** `re.fullmatch(r"[A-Z]{4}", t)` */
  predicate IsIcaoCode(t: string) {
    |t| == 4 && forall i :: 0 <= i < 4 ==> 'A' <= t[i] <= 'Z'
  }

  /** `is_icao_list(text)`: the text, stripped and upper-cased, splits into at
      least one token, and every token is four letters. */
  predicate IsIcaoList(text: string) {
    if text == "" then false
    else
      var parts := Tokens(Upper(Strip(text)));
      parts != [] && forall p :: p in parts ==> IsIcaoCode(p)
  }

  /** `normalize_icao_list(text)`: the upper-cased tokens, in input order. */
  function NormalizeIcaoList(text: string): (codes: seq<string>)
    ensures forall c :: c in codes ==> c != "" && NoSeparator(c) && IsUpperText(c)
  {
    TokensPieces(Upper(Strip(text)));
    UpperTokens(Upper(Strip(text)));
    Tokens(Upper(Strip(text)))
  }

  /** `[c.strip().upper() for c in codes if c.strip()]`, how every fetcher
      cleans the list of codes it is given. */
  function CleanCodes(codes: seq<string>): (r: seq<string>)
    ensures |r| <= |codes|
  {
    if codes == [] then []
    else
      var c := Strip(codes[0]);
      (if c == "" then [] else [Upper(c)]) + CleanCodes(codes[1..])
  }

  /** Every cleaned code is non-empty, upper-case and stripped. */
  lemma {:induction false} CleanCodesShape(codes: seq<string>)
    ensures forall c :: c in CleanCodes(codes) ==> c != "" && IsUpperText(c) && !IsSpace(c[0]) && !IsSpace(c[|c| - 1])
  {
    if codes != [] {
      var c := Strip(codes[0]);
      var rest := CleanCodes(codes[1..]);
      CleanCodesShape(codes[1..]);
      if c == "" {
        assert CleanCodes(codes) == rest;
      } else {
        CleanCode(c);
        assert CleanCodes(codes) == [Upper(c)] + rest;
      }
    }
  }

  /** A stripped, non-empty code stays non-empty and stripped when upper-cased. */
  lemma {:induction false} CleanCode(c: string)
    requires c != "" && !IsSpace(c[0]) && !IsSpace(c[|c| - 1])
    ensures var u := Upper(c); u != "" && IsUpperText(u) && !IsSpace(u[0]) && !IsSpace(u[|u| - 1])
  {
    UpperChars(c);
  }

  /** `[c.strip().upper() for c in raw.split(',') if c.strip()]`, the parsing
      of a comma-separated `icao_codes` field in the JSON endpoints. */
  function CommaCodes(raw: string): (r: seq<string>)
    ensures forall c :: c in r ==> c != "" && ',' !in c && IsUpperText(c)
  {
    var parts := Split(raw, ',');
    CleanCodesKeep(parts, ',');
    CleanCodesShape(parts);
    CleanCodes(parts)
  }

  // ---------------------------------------------------------------------
  // Lemmas

  /** One code's cleaning introduces no character `x` that was not there,
      unless `x` is an upper-case letter. */
  lemma {:induction false} CleanCodeKeeps(c0: string, x: char)
    requires x !in c0 && !('A' <= x <= 'Z')
    ensures x !in Upper(Strip(c0))
  {
    var s, i0 := Strip(c0), LeadingSpaces(c0);
    forall i | 0 <= i < |s| ensures Upper(s)[i] != x {
      assert s[i] == c0[i0 + i];
      assert c0[i0 + i] in c0;
    }
  }

  lemma {:induction false} CleanCodesKeep(codes: seq<string>, x: char)
    requires forall c :: c in codes ==> x !in c
    requires !('A' <= x <= 'Z')
    ensures forall c :: c in CleanCodes(codes) ==> x !in c
  {
    if codes != [] {
      assert codes[0] in codes;
      CleanCodeKeeps(codes[0], x);
      forall c | c in codes[1..] ensures x !in c { assert c in codes; }
      CleanCodesKeep(codes[1..], x);
    }
  }

  /** The pieces of `SplitRuns` hold no separator. */
  lemma {:induction false} SplitRunsPieces(s: string)
    ensures forall p :: p in SplitRuns(s) ==> NoSeparator(p)
    decreases |s|
  {
    var w := WordLength(s);
    WordLengthWord(s);
    assert NoSeparator(s[..w]) by {
      forall i | 0 <= i < w ensures !IsSeparator(s[..w][i]) { assert s[..w][i] == s[i]; }
    }
    if w < |s| {
      var k := SeparatorRun(s[w..]);
      SplitRunsPieces(s[w + k..]);
      SplitRunsStep(s, w, k);
      forall p | p in SplitRuns(s) ensures NoSeparator(p) {
        if p != s[..w] { assert p in SplitRuns(s[w + k..]); }
      }
    } else {
      assert s[..w] == s;
    }
  }

  /** `NonEmpty` keeps only pieces of its input, and only non-empty ones. */
  lemma {:induction false} NonEmptyPieces(parts: seq<string>)
    ensures forall p :: p in NonEmpty(parts) ==> p != "" && p in parts
  {
    if parts != [] {
      NonEmptyPieces(parts[1..]);
      assert forall p :: p in parts[1..] ==> p in parts;
    }
  }

  /** Every token is a non-empty run of non-separators. */
  lemma {:induction false} TokensPieces(s: string)
    ensures forall t :: t in Tokens(s) ==> t != "" && NoSeparator(t)
  {
    SplitRunsPieces(s);
    NonEmptyPieces(SplitRuns(s));
  }

  lemma {:induction false} UpperChars(s: string)
    ensures IsUpperText(Upper(s))
  {
  }

  lemma {:induction false} UpperOfUpperText(s: string)
    requires IsUpperText(s)
    ensures Upper(s) == s
  {
  }

  lemma {:induction false} UpperAppend(a: string, b: string)
    ensures Upper(a + b) == Upper(a) + Upper(b)
  {
  }

  lemma {:induction false} UpperKeepsSeparators(s: string)
    requires AllSeparators(s)
    ensures Upper(s) == s
  {
  }

  lemma {:induction false} WordLengthIs(s: string, n: nat)
    requires n <= |s| && (forall i :: 0 <= i < n ==> !IsSeparator(s[i]))
    requires n < |s| ==> IsSeparator(s[n])
    ensures WordLength(s) == n
  {
    if n > 0 {
      assert !IsSeparator(s[0]);
      forall i | 0 <= i < n - 1 ensures !IsSeparator(s[1..][i]) { assert s[1..][i] == s[i + 1]; }
      if n < |s| { assert s[1..][n - 1] == s[n]; }
      WordLengthIs(s[1..], n - 1);
    }
  }

  lemma {:induction false} SeparatorRunIs(s: string, n: nat)
    requires n <= |s| && (forall i :: 0 <= i < n ==> IsSeparator(s[i]))
    requires n < |s| ==> !IsSeparator(s[n])
    ensures SeparatorRun(s) == n
  {
    if n > 0 {
      assert IsSeparator(s[0]);
      forall i | 0 <= i < n - 1 ensures IsSeparator(s[1..][i]) { assert s[1..][i] == s[i + 1]; }
      if n < |s| { assert s[1..][n - 1] == s[n]; }
      SeparatorRunIs(s[1..], n - 1);
    }
  }

  lemma {:induction false} NonEmptyCons(x: string, rest: seq<string>)
    ensures NonEmpty([x] + rest) == (if x == "" then [] else [x]) + NonEmpty(rest)
  {
    assert ([x] + rest)[1..] == rest;
  }

  lemma {:induction false} NonEmptyOfNonEmpty(parts: seq<string>)
    requires forall p :: p in parts ==> p != ""
    ensures NonEmpty(parts) == parts
  {
    if parts != [] {
      assert parts[0] in parts;
      forall p | p in parts[1..] ensures p != "" { assert p in parts; }
      NonEmptyOfNonEmpty(parts[1..]);
    }
  }

  /** Tokens of an upper-case text are upper-case. */
  lemma {:induction false} UpperTokens(s: string)
    requires IsUpperText(s)
    ensures forall t :: t in Tokens(s) ==> IsUpperText(t)
    decreases |s|
  {
    UpperPieces(s);
    NonEmptyPieces(SplitRuns(s));
  }

  lemma {:induction false} UpperPieces(s: string)
    requires IsUpperText(s)
    ensures forall t :: t in SplitRuns(s) ==> IsUpperText(t)
    decreases |s|
  {
    var w := WordLength(s);
    if w < |s| {
      var k := SeparatorRun(s[w..]);
      UpperPieces(s[w + k..]);
    }
  }

  /** One step of `SplitRuns`: the first word, then the pieces after the
      separator run that follows it. */
  lemma {:induction false} SplitRunsStep(s: string, w: nat, k: nat)
    requires w == WordLength(s) && w < |s| && k == SeparatorRun(s[w..])
    ensures SplitRuns(s) == [s[..w]] + SplitRuns(s[w + k..])
  {
  }

  /** A text that starts with a run of `n` separators has the tokens of what
      follows the run. */
  lemma {:induction false} LeadingRunTokens(t: string, n: nat)
    requires 0 < n && n == SeparatorRun(t)
    ensures Tokens(t) == Tokens(t[n..])
  {
    WordLengthIs(t, 0);
    assert t[0..] == t;
    SplitRunsStep(t, 0, n);
    assert t[..0] == "";
    NonEmptyCons("", SplitRuns(t[n..]));
  }

  /** A separator in front of a text does not change its tokens. */
  lemma {:induction false} TokensPrepend(c: char, s: string)
    requires IsSeparator(c)
    ensures Tokens([c] + s) == Tokens(s)
  {
    var t := [c] + s;
    var n := SeparatorRun(s);
    assert t[1..] == s;
    assert SeparatorRun(t) == n + 1;
    LeadingRunTokens(t, n + 1);
    assert t[n + 1..] == s[n..];
    if n > 0 {
      LeadingRunTokens(s, n);
    } else {
      assert s[n..] == s;
    }
  }

  /** A separator after a text does not change its tokens. */
  lemma {:induction false} TokensAppend(s: string, c: char)
    requires IsSeparator(c)
    ensures Tokens(s + [c]) == Tokens(s)
    decreases |s|
  {
    var w := WordLength(s);
    if w == |s| {
      TokensAppendToWord(s, c);
    } else {
      var k := SeparatorRun(s[w..]);
      if w + k == |s| {
        TokensAppendToRun(s, c, w, k);
      } else {
        TokensAppend(s[w + k..], c);
        TokensAppendToRest(s, c, w, k);
      }
    }
  }

  /** The appended separator lengthens the trailing separator run. */
  lemma {:induction false} TokensAppendToRun(s: string, c: char, w: nat, k: nat)
    requires IsSeparator(c) && w == WordLength(s) && w < |s| && k == SeparatorRun(s[w..]) && w + k == |s|
    ensures Tokens(s + [c]) == Tokens(s)
  {
    var t := s + [c];
    var tail := s[w..];
    WordLengthWord(s);
    SeparatorRunRun(tail);
    forall i | 0 <= i < w ensures !IsSeparator(t[i]) { assert t[i] == s[i]; }
    WordLengthIs(t, w);
    assert t[w..] == tail + [c];
    SeparatorRunIs(tail + [c], k + 1);
    SplitRunsStep(t, w, k + 1);
    SplitRunsStep(s, w, k);
    assert t[..w] == s[..w];
    assert t[w + k + 1..] == [] && s[w + k..] == [];
  }

  /** Appending after the first separator leaves the first word alone. */
  lemma {:induction false} WordLengthAppend(s: string, c: char)
    requires WordLength(s) < |s|
    ensures WordLength(s + [c]) == WordLength(s)
  {
    var t, w := s + [c], WordLength(s);
    WordLengthWord(s);
    forall i | 0 <= i < w ensures !IsSeparator(t[i]) {
      assert t[i] == s[i];
    }
    assert t[w] == s[w];
    WordLengthIs(t, w);
  }

  /** Appending after the end of a separator run leaves the run alone. */
  lemma {:induction false} SeparatorRunAppend(s: string, c: char)
    requires SeparatorRun(s) < |s|
    ensures SeparatorRun(s + [c]) == SeparatorRun(s)
  {
    var t, k := s + [c], SeparatorRun(s);
    SeparatorRunRun(s);
    forall i | 0 <= i < k ensures IsSeparator(t[i]) {
      assert t[i] == s[i];
    }
    assert t[k] == s[k];
    SeparatorRunIs(t, k);
  }

  /** Appending after the first separator run splits off the same first word. */
  lemma {:induction false} SplitRunsAppendRest(s: string, c: char, w: nat, k: nat)
    requires w == WordLength(s) && w < |s| && k == SeparatorRun(s[w..]) && w + k < |s|
    ensures SplitRuns(s + [c]) == [s[..w]] + SplitRuns(s[w + k..] + [c])
  {
    var t := s + [c];
    WordLengthAppend(s, c);
    assert t[w..] == s[w..] + [c];
    SeparatorRunAppend(s[w..], c);
    SplitRunsStep(t, w, k);
    assert t[..w] == s[..w];
    assert t[w + k..] == s[w + k..] + [c];
  }

  /** The appended separator goes to the text after the first run. */
  lemma {:induction false} TokensAppendToRest(s: string, c: char, w: nat, k: nat)
    requires IsSeparator(c) && w == WordLength(s) && w < |s| && k == SeparatorRun(s[w..]) && w + k < |s|
    requires Tokens(s[w + k..] + [c]) == Tokens(s[w + k..])
    ensures Tokens(s + [c]) == Tokens(s)
  {
    var u := s[w + k..];
    SplitRunsAppendRest(s, c, w, k);
    SplitRunsStep(s, w, k);
    NonEmptyCons(s[..w], SplitRuns(u + [c]));
    NonEmptyCons(s[..w], SplitRuns(u));
  }

  lemma {:induction false} TokensAppendToWord(s: string, c: char)
    requires IsSeparator(c) && WordLength(s) == |s|
    ensures Tokens(s + [c]) == Tokens(s)
  {
    var t := s + [c];
    WordLengthWord(s);
    forall i | 0 <= i < |s| ensures !IsSeparator(t[i]) { assert t[i] == s[i]; }
    WordLengthIs(t, |s|);
    assert t[|s|..] == [c];
    SeparatorRunIs([c], 1);
    assert t[|s| + 1..] == [];
    assert t[..|s|] == s;
    assert SplitRuns(t) == [s, ""];
    assert s[..|s|] == s;
    assert SplitRuns(s) == [s];
    NonEmptyCons(s, [""]);
    NonEmptyCons("", []);
    NonEmptyCons(s, []);
  }

  lemma {:induction false} TokensDropFront(p: string, m: string)
    requires AllSeparators(p)
    ensures Tokens(p + m) == Tokens(m)
    decreases |p|
  {
    if p != [] {
      assert p + m == [p[0]] + (p[1..] + m);
      TokensPrepend(p[0], p[1..] + m);
      TokensDropFront(p[1..], m);
    } else {
      assert p + m == m;
    }
  }

  lemma {:induction false} TokensDropBack(m: string, q: string)
    requires AllSeparators(q)
    ensures Tokens(m + q) == Tokens(m)
    decreases |q|
  {
    if q != [] {
      var q' := q[..|q| - 1];
      assert m + q == (m + q') + [q[|q| - 1]];
      TokensAppend(m + q', q[|q| - 1]);
      TokensDropBack(m, q');
    } else {
      assert m + q == m;
    }
  }

  /** Whitespace and commas around a text do not change its tokens. */
  lemma {:induction false} TokensIgnoreSurroundingSeparators(p: string, m: string, q: string)
    requires AllSeparators(p) && AllSeparators(q)
    ensures Tokens(p + m + q) == Tokens(m)
  {
    TokensDropFront(p, m + q);
    assert p + m + q == p + (m + q);
    TokensDropBack(m, q);
  }

  lemma {:induction false} UpperAround(p: string, r: string, q: string)
    requires AllSeparators(p) && AllSeparators(q)
    ensures Upper(p + r + q) == p + Upper(r) + q
  {
    UpperAppend(p + r, q);
    UpperAppend(p, r);
    UpperKeepsSeparators(p);
    UpperKeepsSeparators(q);
  }

  /** Stripping first, as the source does, changes nothing: the codes are the
      tokens of the upper-cased input. */
  lemma {:induction false} NormalizeIgnoresStrip(text: string)
    ensures NormalizeIcaoList(text) == Tokens(Upper(text))
  {
    var i := LeadingSpaces(text);
    var r := Strip(text);
    var p, q := text[..i], text[i + |r|..];
    assert AllSeparators(p);
    assert AllSeparators(q);
    assert text == p + r + q;
    UpperAround(p, r, q);
    TokensIgnoreSurroundingSeparators(p, Upper(r), q);
  }

  /** `is_icao_list` accepts exactly the texts whose upper-cased tokens form a
      non-empty list of 4-letter codes; the empty text is refused. */
  lemma {:induction false} IsIcaoListMeaning(text: string)
    ensures IsIcaoList(text) <==>
      (var ts := Tokens(Upper(text)); ts != [] && forall t :: t in ts ==> IsIcaoCode(t))
    ensures text == "" ==> !IsIcaoList(text)
  {
    NormalizeIgnoresStrip(text);
    if text == "" {
      assert Upper(text) == "";
      assert SplitRuns("") == [""];
      NonEmptyCons("", []);
    }
  }

  /** A gate-approved text normalises to a non-empty list of codes, each four
      upper-case letters. */
  lemma {:induction false} AcceptedTextGivesCodes(text: string)
    requires IsIcaoList(text)
    ensures var codes := NormalizeIcaoList(text); codes != [] && forall c :: c in codes ==> IsIcaoCode(c)
  {
  }

  lemma {:induction false} JoinStartsWithFirst(sep: string, ts: seq<string>)
    requires |ts| >= 1 && ts[0] != ""
    ensures Join(sep, ts) != "" && Join(sep, ts)[0] == ts[0][0]
  {
  }

  /** A word, one space, and a text that starts with a non-separator split
      into the word and the pieces of the text. */
  lemma {:induction false} SplitRunsWordSpace(head: string, rest: string)
    requires NoSeparator(head) && rest != "" && !IsSeparator(rest[0])
    ensures SplitRuns(head + " " + rest) == [head] + SplitRuns(rest)
  {
    var s := head + " " + rest;
    var w := |head|;
    forall i | 0 <= i < w ensures !IsSeparator(s[i]) { assert s[i] == head[i]; }
    assert s[w] == ' ';
    WordLengthIs(s, w);
    var tail := s[w..];
    assert tail == " " + rest;
    assert tail[1] == rest[0];
    SeparatorRunIs(tail, 1);
    SplitRunsStep(s, w, 1);
    assert s[..w] == head;
    assert s[w + 1..] == rest;
  }

  /** Splitting tokens joined by single spaces gives the tokens back. */
  lemma {:induction false} SplitRunsOfJoin(ts: seq<string>)
    requires |ts| >= 1
    requires forall t :: t in ts ==> t != "" && NoSeparator(t)
    ensures SplitRuns(Join(" ", ts)) == ts
  {
    assert ts[0] in ts;
    if |ts| == 1 {
      WordLengthIs(ts[0], |ts[0]|);
      assert ts[0][..|ts[0]|] == ts[0];
    } else {
      var rest := Join(" ", ts[1..]);
      assert ts[1] in ts;
      JoinStartsWithFirst(" ", ts[1..]);
      SplitRunsWordSpace(ts[0], rest);
      forall t | t in ts[1..] ensures t != "" && NoSeparator(t) { assert t in ts; }
      SplitRunsOfJoin(ts[1..]);
      assert [ts[0]] + ts[1..] == ts;
    }
  }

  /** Tokens joined by single spaces tokenise back to themselves. */
  lemma {:induction false} TokensOfJoin(ts: seq<string>)
    requires forall t :: t in ts ==> t != "" && NoSeparator(t)
    ensures Tokens(Join(" ", ts)) == ts
  {
    if ts == [] {
      assert SplitRuns("") == [""];
      NonEmptyCons("", []);
    } else {
      SplitRunsOfJoin(ts);
      NonEmptyOfNonEmpty(ts);
    }
  }

  lemma {:induction false} UpperOfJoin(ts: seq<string>)
    requires forall t :: t in ts ==> IsUpperText(t)
    ensures Upper(Join(" ", ts)) == Join(" ", ts)
  {
    if |ts| >= 2 {
      assert ts[0] in ts;
      forall t | t in ts[1..] ensures IsUpperText(t) { assert t in ts; }
      UpperOfJoin(ts[1..]);
      UpperAppend(ts[0] + " ", Join(" ", ts[1..]));
      UpperAppend(ts[0], " ");
      UpperOfUpperText(ts[0]);
    } else if |ts| == 1 {
      assert ts[0] in ts;
      UpperOfUpperText(ts[0]);
    }
  }

  /** Normalising is idempotent: the space-joined codes normalise to the same codes. */
  lemma {:induction false} NormalizeIdempotent(text: string)
    ensures var codes := NormalizeIcaoList(text);
      NormalizeIcaoList(Join(" ", codes)) == codes
  {
    var codes := NormalizeIcaoList(text);
    NormalizeIgnoresStrip(Join(" ", codes));
    UpperOfJoin(codes);
    TokensOfJoin(codes);
  }

  // ---------------------------------------------------------------------
  // Conservation: the tokens are the input's non-separator characters, in order.

  /** The characters of `s` that are not separators, in order. */
  function Squeeze(s: string): (r: string)
    ensures NoSeparator(r)
  {
    if s == [] then []
    else (if IsSeparator(s[0]) then [] else [s[0]]) + Squeeze(s[1..])
  }

  function Concat(ts: seq<string>): string {
    if ts == [] then [] else ts[0] + Concat(ts[1..])
  }

  lemma {:induction false} SqueezeAppend(a: string, b: string)
    ensures Squeeze(a + b) == Squeeze(a) + Squeeze(b)
  {
    if a != [] {
      assert (a + b)[1..] == a[1..] + b;
      SqueezeAppend(a[1..], b);
    } else {
      assert a + b == b;
    }
  }

  lemma {:induction false} SqueezeWord(s: string)
    requires NoSeparator(s)
    ensures Squeeze(s) == s
  {
    if s != [] { SqueezeWord(s[1..]); }
  }

  lemma {:induction false} SqueezeSeparators(s: string)
    requires AllSeparators(s)
    ensures Squeeze(s) == []
  {
    if s != [] { SqueezeSeparators(s[1..]); }
  }

  lemma {:induction false} ConcatNonEmpty(parts: seq<string>)
    ensures Concat(NonEmpty(parts)) == Concat(parts)
  {
    if parts != [] {
      ConcatNonEmpty(parts[1..]);
      NonEmptyCons(parts[0], parts[1..]);
      assert [parts[0]] + parts[1..] == parts;
      if parts[0] != "" {
        var ne := [parts[0]] + NonEmpty(parts[1..]);
        assert ne[1..] == NonEmpty(parts[1..]);
      } else {
        assert Concat(parts) == "" + Concat(parts[1..]);
        assert "" + Concat(parts[1..]) == Concat(parts[1..]);
        assert NonEmpty(parts) == [] + NonEmpty(parts[1..]);
        assert [] + NonEmpty(parts[1..]) == NonEmpty(parts[1..]);
      }
    }
  }

  lemma {:induction false} SqueezeRun(s: string, w: nat, k: nat)
    requires w + k <= |s|
    requires NoSeparator(s[..w]) && AllSeparators(s[w..w + k])
    ensures Squeeze(s) == s[..w] + Squeeze(s[w + k..])
  {
    assert s == s[..w] + s[w..w + k] + s[w + k..];
    SqueezeAppend(s[..w] + s[w..w + k], s[w + k..]);
    SqueezeAppend(s[..w], s[w..w + k]);
    SqueezeWord(s[..w]);
    SqueezeSeparators(s[w..w + k]);
  }

  /** One step of `SplitRuns`, seen by `Squeeze`: the first word is kept and
      the separator run after it is dropped. */
  lemma {:induction false} SqueezeStep(s: string, w: nat, k: nat)
    requires w == WordLength(s) && w < |s| && k == SeparatorRun(s[w..])
    ensures Squeeze(s) == s[..w] + Squeeze(s[w + k..])
  {
    WordLengthWord(s);
    SeparatorRunRun(s[w..]);
    var word, run := s[..w], s[w..w + k];
    forall i | 0 <= i < w ensures !IsSeparator(word[i]) { assert word[i] == s[i]; }
    forall i | 0 <= i < k ensures IsSeparator(run[i]) { assert run[i] == s[w..][i]; }
    SqueezeRun(s, w, k);
  }

  lemma {:induction false} ConcatSplitRuns(s: string)
    ensures Concat(SplitRuns(s)) == Squeeze(s)
    decreases |s|
  {
    var w := WordLength(s);
    if w == |s| {
      WordLengthWord(s);
      SqueezeWord(s);
      assert Concat([s]) == s + Concat([]);
    } else {
      var k := SeparatorRun(s[w..]);
      ConcatSplitRuns(s[w + k..]);
      SqueezeStep(s, w, k);
      SplitRunsStep(s, w, k);
      var pieces := [s[..w]] + SplitRuns(s[w + k..]);
      assert pieces[1..] == SplitRuns(s[w + k..]);
    }
  }

  /** The tokens, laid end to end, are exactly the characters of the input
      that are neither whitespace nor commas, in their input order. */
  lemma {:induction false} TokensConserveText(s: string)
    ensures Concat(Tokens(s)) == Squeeze(s)
  {
    ConcatNonEmpty(SplitRuns(s));
    ConcatSplitRuns(s);
  }

  /** The fetchers' own cleaning leaves normalised codes as they are. */
  lemma {:induction false} CleanCodesOfNormalized(codes: seq<string>)
    requires forall c :: c in codes ==> c != "" && NoSeparator(c) && IsUpperText(c)
    ensures CleanCodes(codes) == codes
  {
    if codes != [] {
      var c := codes[0];
      assert c in codes;
      assert !IsSeparator(c[0]) && !IsSeparator(c[|c| - 1]);
      UpperOfUpperText(c);
      forall d | d in codes[1..] ensures d != "" && NoSeparator(d) && IsUpperText(d) { assert d in codes; }
      CleanCodesOfNormalized(codes[1..]);
    }
  }
}
