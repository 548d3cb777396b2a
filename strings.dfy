/** The Python `str` operations the briefing service relies on, over ASCII text. */
module Strings {

  /** Characters Python's `str.isspace()` and the regex class `\s` accept, restricted to ASCII. */
  predicate IsSpace(c: char) {
    c == ' ' || ('\t' <= c <= '\r') || ('\U{1C}' <= c <= '\U{1F}')
  }

  predicate AllSpace(s: string) {
    forall i :: 0 <= i < |s| ==> IsSpace(s[i])
  }

  function UpperChar(c: char): char {
    if 'a' <= c <= 'z' then (c as int - 32) as char else c
  }

  function LowerChar(c: char): char {
    if 'A' <= c <= 'Z' then (c as int + 32) as char else c
  }

  /** `s.upper()`: ASCII letters a-z become A-Z, every other character is kept. */
  function Upper(s: string): (r: string)
    ensures |r| == |s|
    ensures forall i :: 0 <= i < |s| ==> r[i] == UpperChar(s[i])
  {
    seq(|s|, i requires 0 <= i < |s| => UpperChar(s[i]))
  }

  /** `s.lower()`: ASCII letters A-Z become a-z, every other character is kept. */
  function Lower(s: string): (r: string)
    ensures |r| == |s|
    ensures forall i :: 0 <= i < |s| ==> r[i] == LowerChar(s[i])
  {
    seq(|s|, i requires 0 <= i < |s| => LowerChar(s[i]))
  }

  /** Number of whitespace characters at the start of `s`. */
  function LeadingSpaces(s: string): (n: nat)
    ensures n <= |s|
    ensures forall k :: 0 <= k < n ==> IsSpace(s[k])
    ensures n < |s| ==> !IsSpace(s[n])
  {
    if s != [] && IsSpace(s[0]) then 1 + LeadingSpaces(s[1..]) else 0
  }

  /** Index where the whitespace at the end of `s` begins. */
  function TextEnd(s: string): (m: nat)
    ensures m <= |s|
    ensures forall k :: m <= k < |s| ==> IsSpace(s[k])
    ensures m > 0 ==> !IsSpace(s[m - 1])
  {
    if s != [] && IsSpace(s[|s| - 1]) then TextEnd(s[..|s| - 1]) else |s|
  }

  /** `s.strip()`: the text between the leading and the trailing whitespace. */
  function Strip(s: string): (r: string)
    ensures var i := LeadingSpaces(s);
      i + |r| <= |s| && r == s[i..i + |r|]
      && (forall k :: 0 <= k < i ==> IsSpace(s[k]))
      && (forall k :: i + |r| <= k < |s| ==> IsSpace(s[k]))
    ensures r == [] || (!IsSpace(r[0]) && !IsSpace(r[|r| - 1]))
    ensures (s == [] || (!IsSpace(s[0]) && !IsSpace(s[|s| - 1]))) ==> r == s
  {
    var i, j := LeadingSpaces(s), TextEnd(s);
    if i == |s| then [] else s[i..j]
  }

  /** `sep.join(parts)` */
  function Join(sep: string, parts: seq<string>): (r: string)
    ensures |parts| == 1 ==> r == parts[0]
  {
    if |parts| == 0 then ""
    else if |parts| == 1 then parts[0]
    else parts[0] + sep + Join(sep, parts[1..])
  }

  /** Index of the first `c` in `s`, or `|s|` when there is none. */
  function IndexOf(s: string, c: char): (i: nat)
    ensures i <= |s|
    ensures forall j :: 0 <= j < i ==> s[j] != c
    ensures i < |s| ==> s[i] == c
  {
    if s == [] then 0
    else if s[0] == c then 0
    else 1 + IndexOf(s[1..], c)
  }

  /** `s.split(c)` for a one-character separator: the pieces between the separators. */
  function Split(s: string, c: char): (r: seq<string>)
    ensures |r| >= 1
    ensures forall p :: p in r ==> c !in p
    decreases |s|
  {
    var i := IndexOf(s, c);
    if i == |s| then
      assert s[..i] == s;
      [s]
    else [s[..i]] + Split(s[i + 1..], c)
  }

  /** A text without the separator is one piece. */
  lemma {:induction false} SplitWhole(s: string, c: char)
    requires c !in s
    ensures Split(s, c) == [s]
  {
    assert forall j :: 0 <= j < |s| ==> s[j] in s;
    assert IndexOf(s, c) == |s|;
  }

  /** A separator-free head, the separator, and the rest split into the head
      and the pieces of the rest. */
  lemma {:induction false} SplitAfter(head: string, c: char, rest: string)
    requires c !in head
    ensures Split(head + [c] + rest, c) == [head] + Split(rest, c)
  {
    var s := head + [c] + rest;
    forall j | 0 <= j < |head| ensures s[j] != c {
      assert s[j] == head[j];
      assert head[j] in head;
    }
    assert s[|head|] == c;
    assert IndexOf(s, c) == |head|;
    assert s[..|head|] == head;
    assert s[|head| + 1..] == rest;
  }

  /** Splitting the join of separator-free pieces gives the pieces back. */
  lemma {:induction false} SplitJoin(parts: seq<string>, c: char)
    requires |parts| >= 1
    requires forall p :: p in parts ==> c !in p
    ensures Split(Join([c], parts), c) == parts
  {
    assert parts[0] in parts;
    if |parts| == 1 {
      SplitWhole(parts[0], c);
    } else {
      forall p | p in parts[1..] ensures c !in p { assert p in parts; }
      SplitJoin(parts[1..], c);
      SplitAfter(parts[0], c, Join([c], parts[1..]));
      assert [parts[0]] + parts[1..] == parts;
    }
  }

  /** `pat` occurs in `s` at index `i`. */
  predicate OccursAt(s: string, pat: string, i: int) {
    0 <= i && i + |pat| <= |s| && s[i..i + |pat|] == pat
  }

  /** Python's `pat in s` */
  predicate Contains(s: string, pat: string) {
    exists i | 0 <= i <= |s| :: OccursAt(s, pat, i)
  }

  /** `s.find(pat, from)`: the first occurrence at or after `from`, or -1. */
  function FindFrom(s: string, pat: string, from: nat): (r: int)
    ensures r == -1 || (from <= r && OccursAt(s, pat, r))
    ensures forall i :: from <= i && (r == -1 || i < r) ==> !OccursAt(s, pat, i)
    decreases |s| - from
  {
    if from + |pat| > |s| then -1
    else if s[from..from + |pat|] == pat then from
    else FindFrom(s, pat, from + 1)
  }

  /** `s.rfind(c, 0, end)` for one character: the last `c` before `end`, or -1. */
  function RFindChar(s: string, c: char, end: nat): (r: int)
    requires end <= |s|
    ensures -1 <= r < end
    ensures r >= 0 ==> s[r] == c
    ensures forall i :: r < i < end ==> s[i] != c
  {
    if end == 0 then -1
    else if s[end - 1] == c then end - 1
    else RFindChar(s, c, end - 1)
  }

  lemma {:induction false} ContainsFind(s: string, pat: string)
    ensures Contains(s, pat) <==> FindFrom(s, pat, 0) >= 0
  {
  }

  /** An occurrence inside a piece is an occurrence in any text built around it. */
  lemma {:induction false} ContainsInside(a: string, b: string, c: string, pat: string)
    requires Contains(b, pat)
    ensures Contains(a + b + c, pat)
  {
    var i :| 0 <= i <= |b| && OccursAt(b, pat, i);
    assert (a + b + c)[|a| + i..|a| + i + |pat|] == b[i..i + |pat|];
    assert OccursAt(a + b + c, pat, |a| + i);
  }

  /** Each character of an occurrence is the pattern's. */
  lemma {:induction false} OccursIndex(s: string, pat: string, p: nat, j: nat)
    requires OccursAt(s, pat, p) && p <= j < p + |pat|
    ensures s[j] == pat[j - p]
  {
    assert s[j] == s[p..p + |pat|][j - p];
  }

  /** An occurrence of `pre + mid + post` holds one of `mid` after `pre`. */
  lemma {:induction false} OccursMiddle(s: string, pre: string, mid: string, post: string, p: nat)
    requires OccursAt(s, pre + mid + post, p)
    ensures OccursAt(s, mid, p + |pre|)
  {
    var pat := pre + mid + post;
    forall k | 0 <= k < |mid| ensures s[p + |pre| + k] == mid[k] {
      OccursIndex(s, pat, p, p + |pre| + k);
      assert pat[|pre| + k] == mid[k];
    }
    assert s[p + |pre|..p + |pre| + |mid|] == mid;
  }
}
