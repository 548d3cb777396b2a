/**
 * The section normaliser applied to the summariser's HTML
 * (`normalize_sections` and its helper `extract_block`): the briefing page
 * expects three sections with the ids `summary`, `recommendations` and
 * `per-airport`, and HTML without them is cut at its headings and wrapped.
 */
module Sections {
  import opened Strings

  /** `id="<sec_id>" in html` */
  predicate HasMarker(html: string, secId: string) {
    Contains(html, "id=\"" + secId + "\"")
  }

  /** The fast path: all three section ids already occur. */
  predicate AllMarkers(html: string) {
    HasMarker(html, "summary") && HasMarker(html, "recommendations") && HasMarker(html, "per-airport")
  }

  /** `f'<section id="{sec_id}">{block}</section>'` */
  function Wrap(secId: string, block: string): (r: string)
    ensures |r| == 13 + |secId| + 2 + |block| + 10
    ensures r[..13] == "<section id=\"" && r[|r| - 10..] == "</section>"
    ensures r[13..13 + |secId|] == secId && r[13 + |secId|..13 + |secId| + 2] == "\">"
    ensures r[13 + |secId| + 2..|r| - 10] == block
  {
    "<section id=\"" + secId + "\">" + block + "</section>"
  }

  /** Where the heading is: the `>` before the first `>heading<`, else the
      first occurrence of the heading itself, compared in lower case; -1 when
      neither occurs. */
  function HeadingIndex(src: string, heading: string): (idx: int)
    ensures idx == -1 || (0 <= idx <= |src|)
    ensures var low := Lower(src);
            var exact := FindFrom(low, ">" + Lower(heading) + "<", 0);
            (exact != -1 ==> idx == exact) &&
            (idx == -1 <==> !Contains(low, ">" + Lower(heading) + "<") && !Contains(low, Lower(heading)))
    ensures var low := Lower(src);
            FindFrom(low, ">" + Lower(heading) + "<", 0) == -1 && idx != -1
            ==> OccursAt(low, Lower(heading), idx) && forall i :: 0 <= i < idx ==> !OccursAt(low, Lower(heading), i)
  {
    ContainsFind(Lower(src), ">" + Lower(heading) + "<");
    ContainsFind(Lower(src), Lower(heading));
    var low := Lower(src);
    var exact := FindFrom(low, ">" + Lower(heading) + "<", 0);
    if exact != -1 then exact else FindFrom(low, Lower(heading), 0)
  }

  /** `src.rfind('<', 0, idx)`: the start of the tag enclosing the heading, or -1. */
  function BlockStart(src: string, heading: string): (h: int)
    ensures -1 <= h < |src|
    ensures h >= 0 ==> src[h] == '<' && h < HeadingIndex(src, heading)
    ensures h >= 0 ==> forall j :: h < j < HeadingIndex(src, heading) ==> src[j] != '<'
    ensures h == -1 ==> HeadingIndex(src, heading) == -1 || forall j :: 0 <= j < HeadingIndex(src, heading) ==> src[j] != '<'
  {
    var idx := HeadingIndex(src, heading);
    if idx == -1 then -1 else RFindChar(src, '<', idx)
  }

  const HeadingTags: seq<string> := ["<h1", "<h2"]

  /** The loop over the tags: the first tag found in `rem` from index 1 on,
      lowering `end`. */
  function CutOver(rem: string, tags: seq<string>, end: nat): (r: nat)
    requires 1 <= end <= |rem|
    ensures 1 <= r <= end
    ensures r < end ==> exists k :: 0 <= k < |tags| && OccursAt(rem, tags[k], r)
    ensures forall k, i :: 0 <= k < |tags| && 1 <= i < r ==> !OccursAt(rem, tags[k], i)
  {
    if tags == [] then end
    else
      var nxt := FindFrom(rem, tags[0], 1);
      var r := CutOver(rem, tags[1..], if nxt != -1 && nxt < end then nxt else end);
      assert forall k :: 0 < k < |tags| ==> tags[k] == tags[1..][k - 1];
      r
  }

  /** Where the block ends within `rem = src[h:]`: at the next `<h1` or `<h2`, or at the end. */
  function BlockEnd(rem: string): (e: nat)
    requires rem != []
    ensures 1 <= e <= |rem|
  {
    CutOver(rem, HeadingTags, |rem|)
  }

  /** `extract_block(src, heading, sec_id)`: the wrapped block and what is left
      of `src` without it. */
  function Extract(src: string, heading: string, secId: string): (r: (string, string))
    ensures BlockStart(src, heading) == -1 <==> r.0 == ""
    ensures BlockStart(src, heading) == -1 ==> r.1 == src
    ensures |r.1| <= |src|
  {
    var h := BlockStart(src, heading);
    if h == -1 then ("", src)
    else
      var rem := src[h..];
      var e := BlockEnd(rem);
      (Wrap(secId, rem[..e]), src[..h] + rem[e..])
  }

  /** The block `extract_block` cuts out, when it finds one. */
  function BlockOf(src: string, heading: string): string
    requires BlockStart(src, heading) >= 0
  {
    var h := BlockStart(src, heading);
    src[h..][..BlockEnd(src[h..])]
  }

  /** `extract_block` as the handler runs it, with its loop over the tags. */
  method ExtractBlock(src: string, heading: string, secId: string) returns (wrapped: string, newSrc: string)
    ensures (wrapped, newSrc) == Extract(src, heading, secId)
  {
    var low := Lower(src);
    var idx := FindFrom(low, ">" + Lower(heading) + "<", 0);
    if idx == -1 {
      idx := FindFrom(low, Lower(heading), 0);
    }
    if idx == -1 {
      return "", src;
    }
    var startH := RFindChar(src, '<', idx);
    if startH == -1 {
      return "", src;
    }
    var rem := src[startH..];
    var endPos := |rem|;
    var tags := HeadingTags;
    for t := 0 to |tags|
      invariant 1 <= endPos <= |rem|
      invariant CutOver(rem, tags, |rem|) == CutOver(rem, tags[t..], endPos)
    {
      assert tags[t..][0] == tags[t] && tags[t..][1..] == tags[t + 1..];
      var nxt := FindFrom(rem, tags[t], 1);
      if nxt != -1 {
        endPos := if nxt < endPos then nxt else endPos;
      }
    }
    var block := rem[..endPos];
    newSrc := src[..startH] + rem[endPos..];
    wrapped := Wrap(secId, block);
  }

  /** `[part] if part else []` */
  function Kept(part: string): (r: seq<string>)
    ensures part == "" ==> r == []
    ensures part != "" ==> r == [part]
  {
    if part != "" then [part] else []
  }

  /** The last part: the stripped remainder as the `per-airport` section, or
      "" when the remainder is blank. */
  function PerAirport(src: string): (r: string)
    ensures Strip(src) == "" <==> r == ""
  {
    var rest := Strip(src);
    if rest != "" then Wrap("per-airport", rest) else ""
  }

  /** What is left of the HTML once both blocks are cut out. */
  function Remainder(html: string): string {
    Extract(Extract(html, "Summary", "summary").1, "Recommendations", "recommendations").1
  }

  /** The parts `normalize_sections` joins, in order: the summary block, the
      recommendations block, and the stripped remainder as `per-airport`,
      each only when there is one. */
  function Parts(html: string): seq<string> {
    var summary := Extract(html, "Summary", "summary");
    var recs := Extract(summary.1, "Recommendations", "recommendations");
    Kept(summary.0) + Kept(recs.0) + Kept(PerAirport(recs.1))
  }

  /** `normalize_sections(html)` */
  function Normalize(html: string): (r: string)
    ensures AllMarkers(html) ==> r == html
  {
    if AllMarkers(html) then html else Join("\n", Parts(html))
  }

  /** `normalize_sections`, threading `src` through the two cuts and
      collecting `out_parts`. */
  method NormalizeSections(html: string) returns (out: string)
    ensures out == Normalize(html)
  {
    if AllMarkers(html) {
      return html;
    }
    var src := html;
    var outParts: seq<string> := [];
    var summaryBlock;
    summaryBlock, src := ExtractBlock(src, "Summary", "summary");
    if summaryBlock != "" {
      outParts := outParts + [summaryBlock];
    }
    assert outParts == Kept(summaryBlock);
    var recsBlock;
    recsBlock, src := ExtractBlock(src, "Recommendations", "recommendations");
    if recsBlock != "" {
      outParts := outParts + [recsBlock];
    }
    assert outParts == Kept(summaryBlock) + Kept(recsBlock);
    var remainder := Strip(src);
    if remainder != "" {
      outParts := outParts + [Wrap("per-airport", remainder)];
    }
    assert outParts == Kept(summaryBlock) + Kept(recsBlock) + Kept(PerAirport(src));
    assert outParts == Parts(html);
    return Join("\n", outParts);
  }

  // ---------------------------------------------------------------------
  // Lemmas

  /** `<h1` or `<h2` starts at `i`. */
  predicate TagAt(s: string, i: int) {
    OccursAt(s, "<h1", i) || OccursAt(s, "<h2", i)
  }

  /** The cut: no `<h1` or `<h2` begins inside the block after its first
      character, and the block ends at the end of `rem` or where one begins. */
  lemma {:induction false} CutMeaning(rem: string)
    requires rem != []
    ensures var e := BlockEnd(rem);
      && (forall i :: 1 <= i < e ==> !TagAt(rem[..e], i))
      && (e == |rem| || TagAt(rem, e))
  {
    var e := BlockEnd(rem);
    forall i | 1 <= i < e ensures !TagAt(rem[..e], i) {
      assert !OccursAt(rem, HeadingTags[0], i) && !OccursAt(rem, HeadingTags[1], i);
      if i + 3 <= e {
        assert rem[..e][i..i + 3] == rem[i..i + 3];
      }
    }
    if e < |rem| {
      var k :| 0 <= k < |HeadingTags| && OccursAt(rem, HeadingTags[k], e);
      assert k == 0 || k == 1;
    }
  }

  /** The block cut out from a `<` at `h`. */
  function BlockFrom(src: string, h: nat): string
    requires h < |src|
  {
    src[h..][..BlockEnd(src[h..])]
  }

  /** The block from `h` is a non-empty stretch of `src` holding no `<h1` or
      `<h2` after its first character, and ending where one begins or at the end. */
  lemma {:induction false} CutAt(src: string, h: nat)
    requires h < |src|
    ensures var b := BlockFrom(src, h);
      && b != [] && h + |b| <= |src| && src[h..h + |b|] == b
      && (forall i :: 1 <= i < |b| ==> !TagAt(b, i))
      && (h + |b| == |src| || TagAt(src, h + |b|))
  {
    var rem := src[h..];
    CutMeaning(rem);
    var e := BlockEnd(rem);
    assert rem[..e] == src[h..h + e];
    if e < |rem| {
      if OccursAt(rem, "<h1", e) {
        assert src[h + e..h + e + 3] == rem[e..e + 3];
      } else {
        assert src[h + e..h + e + 3] == rem[e..e + 3];
      }
    }
  }

  /** The split: `src` is the text before the block, the block, and the text
      after it; `extract_block` keeps the outer two and wraps the block. */
  lemma {:induction false} SplitMeaning(src: string, heading: string, secId: string)
    requires BlockStart(src, heading) >= 0
    ensures var h, b, r := BlockStart(src, heading), BlockOf(src, heading), Extract(src, heading, secId);
      && b != "" && b[0] == '<'
      && h + |b| <= |src| && src[h..h + |b|] == b
      && src == src[..h] + b + src[h + |b|..]
      && r.1 == src[..h] + src[h + |b|..]
      && r.0 == Wrap(secId, b)
  {
    var h := BlockStart(src, heading);
    var e := BlockEnd(src[h..]);
    SlicesAt(src, h, e);
    assert src[h] == '<';
  }

  /** Cutting `e` characters out of `src` from `h` on, in slice terms. */
  lemma {:induction false} SlicesAt(src: string, h: nat, e: nat)
    requires h + e <= |src|
    ensures src[h..][..e] == src[h..h + e]
    ensures src[h..][e..] == src[h + e..]
    ensures src == src[..h] + src[h..h + e] + src[h + e..]
  {
  }

  /** A found block starts at the `<` before the heading and runs to the next
      `<h1` or `<h2` (or the end of `src`), with no such tag inside it. */
  lemma {:induction false} BlockCut(src: string, heading: string)
    requires BlockStart(src, heading) >= 0
    ensures var h, b := BlockStart(src, heading), BlockOf(src, heading);
      && (forall i :: 1 <= i < |b| ==> !TagAt(b, i))
      && (h + |b| == |src| || TagAt(src, h + |b|))
  {
    var h := BlockStart(src, heading);
    assert BlockOf(src, heading) == BlockFrom(src, h);
    CutAt(src, h);
  }

  /** Lower-casing never produces a `<` from another character. */
  lemma {:induction false} LowerKeepsAngle(s: string, j: int)
    requires 0 <= j < |s|
    ensures Lower(s)[j] == '<' <==> s[j] == '<'
  {
  }

  /** Lower-casing commutes with slicing. */
  lemma {:induction false} LowerSlice(s: string, a: nat, b: nat)
    requires a <= b <= |s|
    ensures Lower(s[a..b]) == Lower(s)[a..b]
  {
  }

  /** Where the heading text itself starts: at the found index, or one past
      the `>` that precedes it; only that `>` lies in between. */
  lemma {:induction false} HeadingText(src: string, heading: string) returns (p: nat)
    requires HeadingIndex(src, heading) >= 0
    ensures OccursAt(Lower(src), Lower(heading), p)
    ensures HeadingIndex(src, heading) <= p
    ensures forall j :: HeadingIndex(src, heading) <= j < p ==> src[j] != '<'
  {
    var low, lh := Lower(src), Lower(heading);
    var idx := HeadingIndex(src, heading);
    var exact := FindFrom(low, ">" + lh + "<", 0);
    if exact != -1 {
      p := idx + 1;
      OccursMiddle(low, ">", lh, "<", idx);
      OccursIndex(low, ">" + lh + "<", idx, idx);
      LowerKeepsAngle(src, idx);
    } else {
      p := idx;
    }
  }

  /** The heading text holds no `<` when the heading has none. */
  lemma {:induction false} NoAngleInHeadingText(src: string, heading: string, p: nat)
    requires OccursAt(Lower(src), Lower(heading), p) && '<' !in heading
    ensures forall j :: p <= j < p + |heading| ==> src[j] != '<'
  {
    forall j | p <= j < p + |heading| ensures src[j] != '<' {
      OccursIndex(Lower(src), Lower(heading), p, j);
      assert heading[j - p] in heading;
      assert heading[j - p] != '<';
      LowerKeepsAngle(heading, j - p);
      assert Lower(heading)[j - p] != '<';
      assert Lower(src)[j] != '<';
      LowerKeepsAngle(src, j);
    }
  }

  /** A cut at a `<` made after `h` lies past a stretch free of `<`. */
  lemma {:induction false} CutPastStretch(src: string, h: nat, c: nat, q: nat)
    requires h < c <= |src| && q <= |src|
    requires c < |src| ==> src[c] == '<'
    requires forall j :: h < j < q ==> src[j] != '<'
    ensures c >= q
  {
  }

  /** An occurrence inside a slice is an occurrence in the slice. */
  lemma {:induction false} SliceKeepsOccurrence(s: string, h: nat, len: nat, pat: string, p: nat)
    requires h <= p && p + |pat| <= h + len <= |s| && OccursAt(s, pat, p)
    ensures OccursAt(s[h..h + len], pat, p - h)
  {
    var t := s[h..h + len];
    forall k | 0 <= k < |pat| ensures t[p - h + k] == pat[k] {
      OccursIndex(s, pat, p, p + k);
    }
    assert t[p - h..p - h + |pat|] == pat;
  }

  /** A block cut from `h` reaches past any stretch after `h` without a `<`. */
  lemma {:induction false} CutBeyond(src: string, h: nat, q: nat)
    requires h < q <= |src|
    requires forall j :: h < j < q ==> src[j] != '<'
    ensures h + |BlockFrom(src, h)| >= q
  {
    CutAt(src, h);
    var c := h + |BlockFrom(src, h)|;
    if c < |src| {
      if OccursAt(src, "<h1", c) {
        OccursIndex(src, "<h1", c, c);
      } else {
        OccursIndex(src, "<h2", c, c);
      }
    }
    CutPastStretch(src, h, c, q);
  }

  /** A block cut from `h` covers any text that follows `h` without a `<`. */
  lemma {:induction false} BlockCovers(src: string, h: nat, pat: string, p: nat)
    requires h < p && p + |pat| <= |src| && OccursAt(Lower(src), pat, p)
    requires forall j :: h < j < p + |pat| ==> src[j] != '<'
    ensures Contains(Lower(BlockFrom(src, h)), pat)
  {
    CutAt(src, h);
    var b := BlockFrom(src, h);
    var c := h + |b|;
    CutBeyond(src, h, p + |pat|);
    LowerSlice(src, h, c);
    SliceKeepsOccurrence(Lower(src), h, |b|, pat, p);
    assert OccursAt(Lower(b), pat, p - h);
  }

  /** The block holds the heading it was found by (compared in lower case),
      for a heading without `<`, such as `Summary` and `Recommendations`. */
  lemma {:induction false} ExtractKeepsHeading(src: string, heading: string)
    requires BlockStart(src, heading) >= 0 && '<' !in heading
    ensures Contains(Lower(BlockOf(src, heading)), Lower(heading))
  {
    var h := BlockStart(src, heading);
    var idx := HeadingIndex(src, heading);
    var p := HeadingText(src, heading);
    NoAngleInHeadingText(src, heading, p);
    var n := |heading|;
    assert forall j :: h < j < p + n ==> src[j] != '<' by {
      assert forall j :: h < j < idx ==> src[j] != '<';
      assert forall j :: idx <= j < p ==> src[j] != '<';
      assert forall j :: p <= j < p + n ==> src[j] != '<';
    }
    assert BlockOf(src, heading) == BlockFrom(src, h);
    BlockCovers(src, h, Lower(heading), p);
  }

  /** Three optional parts kept in order. */
  lemma {:induction false} KeptInOrder(a: string, b: string, c: string)
    ensures var parts := Kept(a) + Kept(b) + Kept(c);
      && |parts| == |Kept(a)| + |Kept(b)| + |Kept(c)|
      && (a != "" ==> parts[0] == a)
      && (a == "" && b != "" ==> parts[0] == b)
      && (a != "" && b != "" ==> parts[1] == b)
      && (c != "" ==> parts[|parts| - 1] == c)
  {
  }

  /** The parts are the found blocks and the non-blank remainder, in the fixed
      order summary, recommendations, per-airport. */
  lemma {:induction false} NormalizeLayout(html: string)
    ensures var summary := Extract(html, "Summary", "summary");
      var recs := Extract(summary.1, "Recommendations", "recommendations");
      var parts := Parts(html);
      && |parts| == |Kept(summary.0)| + |Kept(recs.0)| + |Kept(PerAirport(recs.1))|
      && (summary.0 != "" ==> parts[0] == Wrap("summary", BlockOf(html, "Summary")))
      && (summary.0 == "" && recs.0 != "" ==> parts[0] == Wrap("recommendations", BlockOf(summary.1, "Recommendations")))
      && (summary.0 != "" && recs.0 != "" ==> parts[1] == Wrap("recommendations", BlockOf(summary.1, "Recommendations")))
      && (Strip(recs.1) != "" ==> parts[|parts| - 1] == Wrap("per-airport", Strip(recs.1)))
  {
    var summary := Extract(html, "Summary", "summary");
    var recs := Extract(summary.1, "Recommendations", "recommendations");
    KeptInOrder(summary.0, recs.0, PerAirport(recs.1));
    assert Parts(html) == Kept(summary.0) + Kept(recs.0) + Kept(PerAirport(recs.1));
    if summary.0 != "" {
      SplitMeaning(html, "Summary", "summary");
    }
    if recs.0 != "" {
      SplitMeaning(summary.1, "Recommendations", "recommendations");
    }
  }

  /** One cut conserves the text: the block and what is left of `src` have
      every character of `src` between them. */
  lemma {:induction false} SplitConserves(src: string, heading: string, secId: string)
    requires BlockStart(src, heading) >= 0
    ensures var b, rest := BlockOf(src, heading), Extract(src, heading, secId).1;
      && multiset(src) == multiset(b) + multiset(rest)
      && |src| == |b| + |rest|
  {
    SplitMeaning(src, heading, secId);
    var h, b := BlockStart(src, heading), BlockOf(src, heading);
    var pre, post := src[..h], src[h + |b|..];
    calc {
      multiset(src);
      multiset(pre + b + post);
      multiset(pre) + multiset(b) + multiset(post);
      multiset(b) + multiset(pre + post);
    }
  }

  /** Nothing is lost or duplicated: the two blocks and the remainder together
      have every character of the HTML. */
  lemma {:induction false} NormalizeConserves(html: string)
    ensures var summary := Extract(html, "Summary", "summary");
      var recs := Extract(summary.1, "Recommendations", "recommendations");
      && recs.1 == Remainder(html)
      && multiset(html) == multiset(if summary.0 != "" then BlockOf(html, "Summary") else "")
           + multiset(if recs.0 != "" then BlockOf(summary.1, "Recommendations") else "") + multiset(recs.1)
      && |html| == (if summary.0 != "" then |BlockOf(html, "Summary")| else 0)
           + (if recs.0 != "" then |BlockOf(summary.1, "Recommendations")| else 0) + |recs.1|
  {
    var summary := Extract(html, "Summary", "summary");
    if summary.0 != "" {
      SplitConserves(html, "Summary", "summary");
    }
    var recs := Extract(summary.1, "Recommendations", "recommendations");
    if recs.0 != "" {
      SplitConserves(summary.1, "Recommendations", "recommendations");
    }
  }

  /** HTML with visible text is never normalised away: either a block is
      found or the text becomes the per-airport section. */
  lemma {:induction false} NormalizeKeepsText(html: string)
    requires Strip(html) != ""
    ensures Normalize(html) != ""
  {
    if !AllMarkers(html) {
      var summary := Extract(html, "Summary", "summary");
      var recs := Extract(summary.1, "Recommendations", "recommendations");
      var parts := Parts(html);
      if summary.0 == "" && recs.0 == "" {
        assert recs.1 == html;
        assert parts == [PerAirport(html)];
      }
      assert parts != [] && parts[0] != "";
      JoinHead(parts);
    }
  }

  lemma {:induction false} JoinHead(parts: seq<string>)
    requires parts != [] && parts[0] != ""
    ensures Join("\n", parts) != ""
  {
  }

  /** No letter m in either case: neither heading nor the `summary` and
      `recommendations` ids can occur. */
  predicate NoM(s: string) {
    'm' !in s && 'M' !in s
  }

  lemma {:induction false} NoMInside(s: string, pat: string, k: nat)
    requires NoM(s) && k < |pat| && pat[k] == 'm'
    ensures !Contains(s, pat)
  {
    forall i | 0 <= i <= |s| ensures !OccursAt(s, pat, i) {
      if i + |pat| <= |s| {
        assert s[i..i + |pat|][k] == s[i + k];
      }
    }
  }

  lemma {:induction false} NoMLower(s: string)
    requires NoM(s)
    ensures NoM(Lower(s))
  {
  }

  /** A heading spelt with an `m` cannot be found in text without one. */
  lemma {:induction false} HeadingAbsent(src: string, heading: string, k: nat)
    requires NoM(src) && k < |heading| && heading[k] == 'm'
    ensures HeadingIndex(src, heading) == -1
  {
    var low, lh := Lower(src), Lower(heading);
    NoMLower(src);
    assert lh[k] == 'm';
    NoMInside(low, ">" + lh + "<", k + 1);
    NoMInside(low, lh, k);
  }

  /** Text without an `m` lacks the `summary` id, so the fast path is not taken. */
  lemma {:induction false} NoMUnmarked(html: string)
    requires NoM(html)
    ensures !AllMarkers(html)
  {
    var marker := "id=\"" + "summary" + "\"";
    assert marker[6] == 'm';
    NoMInside(html, marker, 6);
  }

  /** Without a heading to find and without the three ids, the whole stripped
      text becomes one per-airport section. */
  lemma {:induction false} NoHeadingsWrapsAll(html: string)
    requires HeadingIndex(html, "Summary") == -1 && HeadingIndex(html, "Recommendations") == -1
    requires !AllMarkers(html) && Strip(html) != ""
    ensures Normalize(html) == Wrap("per-airport", Strip(html))
  {
    assert Parts(html) == [] + [] + [PerAirport(html)];
  }

  /** Text without an `m` has neither heading nor the `summary` id. */
  lemma {:induction false} NoMNoHeadings(html: string)
    requires NoM(html)
    ensures HeadingIndex(html, "Summary") == -1 && HeadingIndex(html, "Recommendations") == -1
    ensures !AllMarkers(html)
  {
    NoMUnmarked(html);
    HeadingAbsent(html, "Summary", 2);
    HeadingAbsent(html, "Recommendations", 4);
  }

  lemma {:induction false} StripNoM(s: string)
    requires NoM(s)
    ensures NoM(Strip(s))
  {
    var r, i := Strip(s), LeadingSpaces(s);
    assert r == s[i..i + |r|];
  }

  /** A section wrapped around text without an `m` has none either. */
  lemma {:induction false} WrapNoM(block: string)
    requires NoM(block)
    ensures NoM(Wrap("per-airport", block))
  {
    var open, close := "<section id=\"per-airport\">", "</section>";
    assert NoM(open) && NoM(close);
    assert Wrap("per-airport", block) == open + block + close;
  }

  /** A section starts with `<` and ends with `>`, so `strip()` leaves it as it is. */
  lemma {:induction false} WrapStripped(secId: string, block: string)
    ensures Strip(Wrap(secId, block)) == Wrap(secId, block)
  {
    var w := Wrap(secId, block);
    assert w[0] == w[..13][0] == '<';
    assert w[|w| - 1] == w[|w| - 10..][9] == '>';
  }

  /** Normalising is not idempotent: HTML with no heading (and hence without
      the three ids) becomes a per-airport section, and normalising that wraps
      it a second time. */
  lemma {:induction false} NormalizeNotIdempotent(html: string)
    requires NoM(html) && Strip(html) != ""
    ensures Normalize(Normalize(html)) == Wrap("per-airport", Normalize(html))
    ensures Normalize(Normalize(html)) != Normalize(html)
  {
    NoMNoHeadings(html);
    NoHeadingsWrapsAll(html);
    var once := Normalize(html);
    StripNoM(html);
    WrapNoM(Strip(html));
    WrapStripped("per-airport", Strip(html));
    NoMNoHeadings(once);
    NoHeadingsWrapsAll(once);
    assert |Wrap("per-airport", once)| > |once|;
  }
}
