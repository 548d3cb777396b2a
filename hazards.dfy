/**
 * The hazard text (`fetch_sigmet_airmet`): the SIGMETs and the AIRMETs the
 * data server lists, each class flattened to one text per line under its
 * heading, the two blocks separated by a blank line.
 */
module Hazards {
  import opened Strings
  import opened JsonValues

  /** How one hazard class is read: the payload entity and the keys tried in turn. */
  datatype HazardClass = HazardClass(entity: string, keys: seq<string>, heading: string)

  const Sigmets: HazardClass := HazardClass("sigmet", ["raw_text", "description"], "SIGMETs:\n")
  const Airmets: HazardClass := HazardClass("airsigmet", ["raw_text", "hazard", "message"], "AIRMETs:\n")

  /** `(props or {}).get(k1) or (props or {}).get(k2) ...` for one item:
      Raised when the properties are truthy but not an object, which has no `.get`. */
  function ItemText(item: Json, keys: seq<string>): (r: Result<Json>)
    requires keys != []
    ensures !Truthy(ItemProps(item)) ==> r == Ok(JNull)
    ensures Truthy(ItemProps(item)) && !ItemProps(item).JObj? ==> r == Raised
    ensures ItemProps(item).JObj? && Truthy(ItemProps(item)) ==>
      r == Ok(Or(Lookups(ItemProps(item).fields, keys)))
  {
    var props := ItemProps(item);
    // `{}.get(k)` is None for every key, and so is the whole chain
    if !Truthy(props) then Ok(JNull)
    else if !props.JObj? then Raised
    else Ok(Or(Lookups(props.fields, keys)))
  }

  /** The loop filling `texts`: the truthy text of each item, in payload order. */
  function Texts(items: seq<Json>, keys: seq<string>): (r: Result<seq<Json>>)
    requires keys != []
    ensures r.Ok? ==> |r.value| <= |items| && forall t :: t in r.value ==> Truthy(t)
    ensures r.Raised? <==> exists i :: 0 <= i < |items| && ItemText(items[i], keys).Raised?
    ensures r.Ok? ==> forall i ::
      (0 <= i < |items| && Truthy(ItemText(items[i], keys).value)) ==> ItemText(items[i], keys).value in r.value
  {
    if items == [] then Ok([])
    else match ItemText(items[0], keys)
      case Raised => Raised
      case Ok(t) =>
        var rest := Texts(items[1..], keys);
        assert forall i :: 0 < i < |items| ==> items[i] == items[1..][i - 1];
        if rest.Raised? then Raised
        else Ok((if Truthy(t) then [t] else []) + rest.value)
  }

  /** The texts as Python strings, or None when one is not a string (`"\n".join` raises). */
  function TextLines(texts: seq<Json>): (r: Option<seq<string>>)
    ensures r.Some? <==> forall t :: t in texts ==> t.JStr?
    ensures r.Some? ==> |r.value| == |texts| && forall i :: 0 <= i < |texts| ==> r.value[i] == texts[i].s
  {
    if texts == [] then Some([])
    else if !texts[0].JStr? then None
    else
      var rest := TextLines(texts[1..]);
      assert forall t :: t in texts[1..] ==> t in texts;
      assert forall t :: t in texts ==> t == texts[0] || t in texts[1..];
      if rest.None? then None else Some([texts[0].s] + rest.value)
  }

  /** What one class adds to `pieces`: nothing, or its heading and texts joined
      by newlines; Raised when the request, the decoding, the payload or the
      join raises. A reply other than 200 adds nothing and raises nothing. */
  function ClassPieces(resp: Response, c: HazardClass): (r: Result<seq<string>>)
    requires c.keys != []
    ensures r.Ok? ==> |r.value| <= 1
    ensures resp.TransportError? ==> r == Raised
    ensures resp.Reply? && resp.status != 200 ==> r == Ok([])
  {
    if resp.TransportError? then Raised
    else if resp.status != 200 then Ok([])
    else if resp.body.None? then Raised
    else match Payload(resp.body.value, c.entity)
      case Raised => Raised
      case Ok(data) =>
        if !data.JArr? || data.items == [] then Ok([])
        else match Texts(data.items, c.keys)
          case Raised => Raised
          case Ok(texts) =>
            if texts == [] then Ok([])
            else match TextLines(texts)
              case None => Raised
              case Some(lines) => Ok([c.heading + Join("\n", lines)])
  }

  /** The text `fetch_sigmet_airmet` returns for the SIGMET reply `r1` and the
      AIRMET reply `r2`: "" when anything raises. */
  function HazardText(r1: Response, r2: Response): string {
    match ClassPieces(r1, Sigmets)
    case Raised => ""
    case Ok(p1) =>
      match ClassPieces(r2, Airmets)
      case Raised => ""
      case Ok(p2) => Strip(Join("\n\n", p1 + p2))
  }

  /** One step of the text loop: the first item's text, then the rest. */
  lemma {:induction false} TextsStep(items: seq<Json>, keys: seq<string>)
    requires keys != [] && items != []
    ensures ItemText(items[0], keys).Raised? ==> Texts(items, keys) == Raised
    ensures ItemText(items[0], keys).Ok? ==>
      var t := ItemText(items[0], keys).value;
      Texts(items, keys) == Then(if Truthy(t) then [t] else [], Texts(items[1..], keys))
  {
  }

  /** The value of each item's text chain, for items none of which raises. */
  function ItemTexts(items: seq<Json>, keys: seq<string>): (vs: seq<Json>)
    requires keys != [] && forall i :: 0 <= i < |items| ==> ItemText(items[i], keys).Ok?
    ensures |vs| == |items| && forall i :: 0 <= i < |items| ==> vs[i] == ItemText(items[i], keys).value
  {
    seq(|items|, i requires 0 <= i < |items| => ItemText(items[i], keys).value)
  }

  /** `[t for t in vs if t]`: the reference the text loop is measured against. */
  function Truthies(vs: seq<Json>): seq<Json> {
    if vs == [] then [] else (if Truthy(vs[0]) then [vs[0]] else []) + Truthies(vs[1..])
  }

  /** Filtering keeps exactly the truthy values. */
  lemma {:induction false} TruthiesKeepTruthy(vs: seq<Json>)
    ensures forall v :: v in Truthies(vs) <==> v in vs && Truthy(v)
  {
    if vs != [] {
      TruthiesKeepTruthy(vs[1..]);
      assert forall v :: v in vs <==> v == vs[0] || v in vs[1..];
    }
  }

  /** Filtering keeps the order: what the first part keeps comes before what
      the second part keeps. */
  lemma {:induction false} TruthiesConcat(a: seq<Json>, b: seq<Json>)
    ensures Truthies(a + b) == Truthies(a) + Truthies(b)
  {
    if a != [] {
      assert (a + b)[0] == a[0] && (a + b)[1..] == a[1..] + b;
      TruthiesConcat(a[1..], b);
    } else {
      assert a + b == b;
    }
  }

  /** The text loop is that filter over the items' text chains: it raises
      only when an item raises, and otherwise keeps every truthy text in
      payload order. */
  lemma {:induction false} TextsAreTruthies(items: seq<Json>, keys: seq<string>)
    requires keys != [] && forall i :: 0 <= i < |items| ==> ItemText(items[i], keys).Ok?
    ensures Texts(items, keys) == Ok(Truthies(ItemTexts(items, keys)))
  {
    if items != [] {
      TextsStep(items, keys);
      var tail := items[1..];
      assert forall i :: 0 <= i < |tail| ==> tail[i] == items[i + 1];
      TextsAreTruthies(tail, keys);
      assert ItemTexts(items, keys)[1..] == ItemTexts(tail, keys);
    }
  }

  /** The loop over one class's items, appending each truthy text. */
  method CollectTexts(items: seq<Json>, keys: seq<string>) returns (r: Result<seq<Json>>)
    requires keys != []
    ensures r == Texts(items, keys)
  {
    var texts: seq<Json> := [];
    var i := 0;
    assert items[i..] == items;
    assert Then(texts, Texts(items, keys)) == Texts(items, keys) by {
      var q := Texts(items, keys);
      if q.Ok? {
        assert texts + q.value == q.value;
      }
    }
    while i < |items|
      invariant 0 <= i <= |items|
      invariant Texts(items, keys) == Then(texts, Texts(items[i..], keys))
    {
      assert items[i..][0] == items[i] && items[i..][1..] == items[i + 1..];
      TextsStep(items[i..], keys);
      var t := ItemText(items[i], keys);
      if t.Raised? {
        return Raised;
      }
      var found := if Truthy(t.value) then [t.value] else [];
      ThenThen(texts, found, Texts(items[i + 1..], keys));
      texts := texts + found;
      i := i + 1;
    }
    assert items[i..] == [];
    assert texts + [] == texts;
    return Ok(texts);
  }

  /** The handling of one class's reply, as the handler runs it. */
  method ClassBlock(resp: Response, c: HazardClass) returns (r: Result<seq<string>>)
    requires c.keys != []
    ensures r == ClassPieces(resp, c)
  {
    if resp.TransportError? {
      return Raised;
    }
    if resp.status != 200 {
      return Ok([]);
    }
    if resp.body.None? {
      return Raised;
    }
    var data := Payload(resp.body.value, c.entity);
    if data.Raised? {
      return Raised;
    }
    if !data.value.JArr? || data.value.items == [] {
      return Ok([]);
    }
    var texts := CollectTexts(data.value.items, c.keys);
    if texts.Raised? {
      return Raised;
    }
    if texts.value == [] {
      return Ok([]);
    }
    var lines := TextLines(texts.value);
    if lines.None? {
      return Raised;
    }
    return Ok([c.heading + Join("\n", lines.value)]);
  }

  /** `fetch_sigmet_airmet`: the SIGMET reply, then the AIRMET reply. */
  method FetchSigmetAirmet(r1: Response, r2: Response) returns (text: string)
    ensures text == HazardText(r1, r2)
  {
    var pieces: seq<string> := [];
    var sig := ClassBlock(r1, Sigmets);
    if sig.Raised? {
      return "";
    }
    pieces := pieces + sig.value;
    var air := ClassBlock(r2, Airmets);
    if air.Raised? {
      return "";
    }
    pieces := pieces + air.value;
    assert pieces == sig.value + air.value;
    return Strip(Join("\n\n", pieces));
  }

  // ---------------------------------------------------------------------
  // Lemmas

  /** With no text in either class the result is "". */
  lemma {:induction false} NoHazardsIsEmpty(r1: Response, r2: Response)
    requires ClassPieces(r1, Sigmets) == Ok([]) && ClassPieces(r2, Airmets) == Ok([])
    ensures HazardText(r1, r2) == ""
  {
    assert Join("\n\n", []) == "";
  }

  /** Any exception discards everything, even a SIGMET block already built. */
  lemma {:induction false} RaiseDiscardsAll(r1: Response, r2: Response)
    requires ClassPieces(r1, Sigmets).Raised? || ClassPieces(r2, Airmets).Raised?
    ensures HazardText(r1, r2) == ""
  {
  }

  /** A string that starts with a non-space character keeps that start through
      `strip()` and keeps at least the text up to its last non-space character. */
  lemma {:induction false} StripKeepsHead(s: string, n: nat)
    requires 0 < n <= |s| && !IsSpace(s[0]) && !IsSpace(s[n - 1])
    ensures |Strip(s)| >= n && Strip(s)[..n] == s[..n]
  {
    var r := Strip(s);
    assert LeadingSpaces(s) == 0;
    assert r == s[0..|r|];
  }

  /** When both classes yield text the SIGMET block comes first, then a blank
      line, then the AIRMET block; only trailing whitespace is stripped. */
  lemma {:induction false} BothBlocks(r1: Response, r2: Response)
    requires ClassPieces(r1, Sigmets).Ok? && ClassPieces(r1, Sigmets).value != []
    requires ClassPieces(r2, Airmets).Ok? && ClassPieces(r2, Airmets).value != []
    ensures var b1, b2 := ClassPieces(r1, Sigmets).value[0], ClassPieces(r2, Airmets).value[0];
      var t := HazardText(r1, r2);
      && b1 == Sigmets.heading + b1[|Sigmets.heading|..]
      && b2 == Airmets.heading + b2[|Airmets.heading|..]
      && |t| >= |b1| + 2 + 8
      && t[..|b1| + 2 + 8] == b1 + "\n\n" + "AIRMETs:"
      && t == Strip(b1 + "\n\n" + b2)
  {
    var b1, b2 := ClassPieces(r1, Sigmets).value[0], ClassPieces(r2, Airmets).value[0];
    PieceHasHeading(r1, Sigmets);
    PieceHasHeading(r2, Airmets);
    assert ClassPieces(r1, Sigmets).value + ClassPieces(r2, Airmets).value == [b1, b2];
    TwoBlocks(b1, b2);
  }

  /** A class that gives text gives one piece: its heading, then its lines. */
  lemma {:induction false} PieceHasHeading(resp: Response, c: HazardClass)
    requires c.keys != [] && ClassPieces(resp, c).Ok? && ClassPieces(resp, c).value != []
    ensures var p := ClassPieces(resp, c).value;
      p == [p[0]] && |p[0]| >= |c.heading| && p[0] == c.heading + p[0][|c.heading|..]
  {
  }

  /** Two blocks joined by a blank line keep the first block and the next
      heading through `strip()`. */
  lemma {:induction false} TwoBlocks(b1: string, b2: string)
    requires |b1| >= 9 && b1[..9] == "SIGMETs:\n"
    requires |b2| >= 9 && b2[..9] == "AIRMETs:\n"
    ensures var n := |b1| + 2 + 8;
      var t := Strip(Join("\n\n", [b1, b2]));
      |t| >= n && t[..n] == b1 + "\n\n" + "AIRMETs:" && t == Strip(b1 + "\n\n" + b2)
  {
    var s := b1 + "\n\n" + b2;
    assert Join("\n\n", [b1, b2]) == s by {
      assert [b1, b2][1..] == [b2];
    }
    var n := |b1| + 2 + 8;
    assert s[0] == b1[..9][0];
    assert s[n - 1] == b2[..9][7];
    assert s[..n] == b1 + "\n\n" + "AIRMETs:" by {
      assert s[|b1| + 2..n] == b2[..8];
    }
    StripKeepsHead(s, n);
  }

  /** The SIGMET block alone, when the AIRMETs yield nothing, and the other way
      round: the text opens with the heading of the class that gave text. */
  lemma {:induction false} OneBlock(r1: Response, r2: Response)
    requires ClassPieces(r1, Sigmets).Ok? && ClassPieces(r2, Airmets).Ok?
    requires |ClassPieces(r1, Sigmets).value + ClassPieces(r2, Airmets).value| == 1
    ensures var b := (ClassPieces(r1, Sigmets).value + ClassPieces(r2, Airmets).value)[0];
      var heading := if ClassPieces(r1, Sigmets).value != [] then "SIGMETs:" else "AIRMETs:";
      HazardText(r1, r2) == Strip(b) && |Strip(b)| >= 8 && Strip(b)[..8] == heading
  {
    var b := (ClassPieces(r1, Sigmets).value + ClassPieces(r2, Airmets).value)[0];
    StripKeepsHead(b, 8);
  }

  /** A class block read line by line: the heading without its newline,
      then the texts themselves, when none of them holds a newline. */
  lemma {:induction false} BlockLines(c: HazardClass, lines: seq<string>)
    requires c == Sigmets || c == Airmets
    requires lines != [] && forall l :: l in lines ==> '\n' !in l
    ensures Split(c.heading + Join("\n", lines), '\n') == [c.heading[..|c.heading| - 1]] + lines
  {
    var h := c.heading[..|c.heading| - 1];
    assert h == "SIGMETs:" || h == "AIRMETs:";
    assert c.heading + Join("\n", lines) == h + ['\n'] + Join("\n", lines);
    SplitAfter(h, '\n', Join("\n", lines));
    SplitJoin(lines, '\n');
  }

  /** What a 200 reply adds for one class: nothing when no item has a truthy
      text, else one block, the class heading followed by those texts joined
      by newlines in payload order. */
  lemma {:induction false} ClassPiecesContent(resp: Response, c: HazardClass, items: seq<Json>)
    requires c.keys != [] && resp.Reply? && resp.status == 200 && resp.body.Some?
    requires Payload(resp.body.value, c.entity) == Ok(JArr(items))
    requires forall i :: 0 <= i < |items| ==> ItemText(items[i], c.keys).Ok?
    requires forall t :: t in Truthies(ItemTexts(items, c.keys)) ==> t.JStr?
    ensures var lines := TextLines(Truthies(ItemTexts(items, c.keys)));
      && lines.Some?
      && ClassPieces(resp, c) == (if lines.value == [] then Ok([]) else Ok([c.heading + Join("\n", lines.value)]))
  {
    TextsAreTruthies(items, c.keys);
    if items == [] {
      assert ItemTexts(items, c.keys) == [];
      assert Truthies([]) == [];
    }
  }

  /** Read line by line, the block a class adds is its heading, then one line
      per truthy item text. */
  lemma {:induction false} ClassBlockLines(resp: Response, c: HazardClass, items: seq<Json>)
    requires c == Sigmets || c == Airmets
    requires resp.Reply? && resp.status == 200 && resp.body.Some?
    requires Payload(resp.body.value, c.entity) == Ok(JArr(items))
    requires forall i :: 0 <= i < |items| ==> ItemText(items[i], c.keys).Ok?
    requires forall t :: t in Truthies(ItemTexts(items, c.keys)) ==> t.JStr? && '\n' !in t.s
    requires Truthies(ItemTexts(items, c.keys)) != []
    ensures var texts := Truthies(ItemTexts(items, c.keys));
      exists p :: ClassPieces(resp, c) == Ok([p])
        && Split(p, '\n') == [c.heading[..|c.heading| - 1]] + seq(|texts|, i requires 0 <= i < |texts| => texts[i].s)
  {
    var texts := Truthies(ItemTexts(items, c.keys));
    ClassPiecesContent(resp, c, items);
    var lines := TextLines(texts).value;
    assert lines == seq(|texts|, i requires 0 <= i < |texts| => texts[i].s);
    assert forall l :: l in lines ==> '\n' !in l by {
      forall l | l in lines ensures '\n' !in l {
        var i :| 0 <= i < |lines| && lines[i] == l;
        assert texts[i] in texts;
      }
    }
    BlockLines(c, lines);
    var p := c.heading + Join("\n", lines);
    assert ClassPieces(resp, c) == Ok([p]);
  }
}
