/** The conversation module's reader of JSON string lists, which drops backslashes. */
module ConversationListScan {
  import opened Text
  import opened JsonText
  import opened ListReader

  function List(json: string): seq<string> {
    match FindChar(json, '[', 0)
    case Some(k) => Run(Dropping, START, json[k + 1..]).result
    case None => []
  }

  method ParseConversationStringArray(json: string) returns (result: seq<string>)
    ensures result == List(json)
  {
    result := [];
    var start := FindChar(json, '[', 0);
    if start.None? { return; }
    ghost var first := start.value + 1;
    var i := start.value + 1;
    var current, inString, escapeNext := "", false, false;
    ghost var s := START;
    while i < |json|
      invariant first <= i <= |json|
      invariant s == Scan(result, current, inString, escapeNext, false)
      invariant Run(Dropping, START, json[first..]) == Run(Dropping, s, json[i..])
    {
      var c := json[i];
      RunStep(Dropping, s, json, i);
      s := Next(Dropping, s, c);
      if escapeNext {
        current := current + [c];
        escapeNext := false;
      } else if c == '\\' {
        escapeNext := true;
      } else if c == '"' {
        inString := !inString;
      } else if inString {
        current := current + [c];
      } else if c == ',' || c == ']' {
        if current != "" {
          result := result + [current];
          current := "";
        }
        if c == ']' {
          RunDone(Dropping, s, json[i + 1..]);
          break;
        }
      }
      i := i + 1;
    }
  }

  // ---------- what it makes of a printed list ----------

  /** What remains of an escaped character once its backslash is dropped. */
  function Stripped(c: char): string {
    if IsPlain(c) then [c] else EscapeChar(c)[1..]
  }

  function Strip(s: string): string {
    if s == [] then [] else Stripped(s[0]) + Strip(s[1..])
  }

  function StripAll(items: seq<string>): (r: seq<string>)
    ensures |r| == |items| && forall i :: 0 <= i < |r| ==> r[i] == Strip(items[i])
  {
    if items == [] then [] else [Strip(items[0])] + StripAll(items[1..])
  }

  lemma RunUnit(s: Scan, c: char)
    requires Inside(s)
    ensures Run(Dropping, s, EscapeChar(c)) == s.(current := s.current + Stripped(c))
  {
    var t := EscapeChar(c);
    if IsPlain(c) {
      RunPlain(Dropping, s, t);
    } else {
      var u := Next(Dropping, Next(Dropping, s, t[0]), t[1]);
      assert t[1..][1..] == t[2..];
      RunPlain(Dropping, u, t[2..]);
      assert s.current + [t[1]] + t[2..] == s.current + t[1..];
    }
  }

  lemma {:induction false} RunBody(s: Scan, text: string)
    requires Inside(s)
    ensures Run(Dropping, s, Escape(text)) == s.(current := s.current + Strip(text))
    decreases |text|
  {
    if text == [] {
      assert s.current + [] == s.current;
    } else {
      RunUnit(s, text[0]);
      RunConcat(Dropping, s, EscapeChar(text[0]), Escape(text[1..]));
      RunBody(s.(current := s.current + Stripped(text[0])), text[1..]);
      Assoc(s.current, Stripped(text[0]), Strip(text[1..]));
    }
  }

  lemma RunQuote(s: Scan, text: string)
    requires Between(s)
    ensures Run(Dropping, s, Quote(text)) == s.(current := Strip(text))
  {
    var inside := s.(inString := true);
    RunOne(Dropping, s, '"');
    RunConcat(Dropping, s, ['"'], Escape(text));
    RunBody(inside, text);
    assert "" + Strip(text) == Strip(text);
    RunConcat(Dropping, s, ['"'] + Escape(text), ['"']);
    RunOne(Dropping, inside.(current := Strip(text)), '"');
  }

  /** A quoted string and the separator or bracket after it. */
  lemma RunItem(s: Scan, text: string, c: char)
    requires Between(s) && (c == ',' || c == ']')
    ensures Run(Dropping, s, Quote(text) + [c]) == s.(result := s.result + NonEmpty([Strip(text)]), done := c == ']')
  {
    RunQuote(s, text);
    RunConcat(Dropping, s, Quote(text), [c]);
    RunOne(Dropping, s.(current := Strip(text)), c);
    assert [Strip(text)][1..] == [] && s.result + [] == s.result;
  }

  lemma {:induction false} RunItems(s: Scan, items: seq<string>)
    requires Between(s)
    ensures Run(Dropping, s, PrintItems(items) + [']']) ==
      s.(result := s.result + NonEmpty(StripAll(items)), done := true)
    decreases |items|
  {
    if items == [] {
      RunOne(Dropping, s, ']');
      assert s.result + [] == s.result;
      assert PrintItems(items) + [']'] == [']'];
    } else if |items| == 1 {
      RunItem(s, items[0], ']');
      assert StripAll(items) == [Strip(items[0])];
    } else {
      RunItem(s, items[0], ',');
      RunItemsCons(s, items);
    }
  }

  lemma {:induction false} RunItemsCons(s: Scan, items: seq<string>)
    requires Between(s) && |items| > 1
    ensures Run(Dropping, s, PrintItems(items) + [']']) ==
      s.(result := s.result + NonEmpty(StripAll(items)), done := true)
    decreases |items|, 0
  {
    var head, tail := NonEmpty([Strip(items[0])]), NonEmpty(StripAll(items[1..]));
    var first, rest := Quote(items[0]) + [','], PrintItems(items[1..]) + [']'];
    RunItem(s, items[0], ',');
    assert PrintItems(items) + [']'] == first + rest;
    RunConcat(Dropping, s, first, rest);
    RunItems(s.(result := s.result + head), items[1..]);
    NonEmptyCons(Strip(items[0]), StripAll(items[1..]));
    Assoc(s.result, head, tail);
  }

  lemma ListOfPrinted(items: seq<string>, rest: string)
    ensures List(PrintList(items) + rest) == NonEmpty(StripAll(items))
  {
    var t := PrintList(items) + rest;
    FindCharAt(t, '[', 0, 0);
    assert t[1..] == (PrintItems(items) + [']']) + rest;
    RunItems(START, items);
    RunConcat(Dropping, START, PrintItems(items) + [']'], rest);
    RunDone(Dropping, Run(Dropping, START, PrintItems(items) + [']']), rest);
    assert [] + NonEmpty(StripAll(items)) == NonEmpty(StripAll(items));
  }

  ghost predicate NoControls(s: string) {
    forall i :: 0 <= i < |s| ==> !IsControl(s[i])
  }

  /** Dropping backslashes undoes the escaping of quotes and backslashes, and never
      produces a control character. */
  lemma {:induction false} StripInverts(s: string)
    ensures NoControls(Strip(s))
    ensures NoControls(s) ==> Strip(s) == s
  {
    if s != [] {
      StripInverts(s[1..]);
      StrippedUnit(s[0]);
      NoControlsConcat(Stripped(s[0]), Strip(s[1..]));
      NoControlsConcat([s[0]], s[1..]);
      assert s == [s[0]] + s[1..];
    }
  }

  lemma StrippedUnit(c: char)
    ensures NoControls(Stripped(c))
    ensures NoControls([c]) ==> Stripped(c) == [c]
  {
    assert [c][0] == c;
    if c == '"' || c == '\\' { assert EscapeChar(c)[1..] == [c]; }
  }

  lemma NoControlsConcat(a: string, b: string)
    ensures NoControls(a + b) <==> NoControls(a) && NoControls(b)
  {
    if NoControls(a + b) {
      assert forall i :: 0 <= i < |a| ==> a[i] == (a + b)[i];
      assert forall i :: 0 <= i < |b| ==> b[i] == (a + b)[|a| + i];
    }
  }

  lemma {:induction false} StripAllInverts(items: seq<string>)
    ensures forall s :: s in NonEmpty(StripAll(items)) ==> NoControls(s)
    ensures (forall s :: s in items ==> NoControls(s)) ==> StripAll(items) == items
  {
    forall i | 0 <= i < |items| ensures NoControls(StripAll(items)[i])
                                ensures NoControls(items[i]) ==> StripAll(items)[i] == items[i] {
      StripInverts(items[i]);
    }
  }

  /** The reader inverts the printer exactly on lists without control characters. */
  lemma ConversationRoundTripIff(items: seq<string>, rest: string)
    ensures List(PrintList(items) + rest) == NonEmpty(items) <==> forall s :: s in items ==> NoControls(s)
  {
    ListOfPrinted(items, rest);
    StripAllInverts(items);
    forall s | s in items && !NoControls(s) ensures s in NonEmpty(items) && s !in NonEmpty(StripAll(items)) {
    }
  }

  // ---------- lists with white space ----------

  /** Text outside strings that means nothing: no quotes, escapes, commas or brackets. */
  predicate IsGap(t: string) {
    forall i :: 0 <= i < |t| ==> t[i] != '"' && t[i] != '\\' && t[i] != ',' && t[i] != ']'
  }

  /** Quoted strings with gaps around them, separated by commas and closed by a bracket. */
  function Spaced(before: seq<string>, items: seq<string>, after: seq<string>): string
    requires |before| == |items| && |after| == |items|
  {
    if items == [] then [']']
    else
      before[0] + (Quote(items[0]) + (after[0]
        + if |items| == 1 then [']'] else [','] + Spaced(before[1..], items[1..], after[1..])))
  }

  lemma {:induction false} GapIsPassed(s: Scan, gap: string)
    requires !s.inString && !s.escapeNext && !s.done && IsGap(gap)
    ensures Run(Dropping, s, gap) == s
  {
    if gap != [] { GapIsPassed(s, gap[1..]); }
  }

  /** A string with gaps around it, up to the comma or bracket behind it. */
  lemma SpacedItem(s: Scan, before: string, text: string, after: string, c: char, rest: string)
    requires Between(s) && IsGap(before) && IsGap(after) && (c == ',' || c == ']')
    ensures Run(Dropping, s, before + (Quote(text) + (after + ([c] + rest)))) ==
      Run(Dropping, s.(result := s.result + NonEmpty([Strip(text)]), done := c == ']'), rest)
  {
    var u := s.(current := Strip(text));
    GapIsPassed(s, before);
    RunConcat(Dropping, s, before, Quote(text) + (after + ([c] + rest)));
    RunQuote(s, text);
    RunConcat(Dropping, s, Quote(text), after + ([c] + rest));
    GapIsPassed(u, after);
    RunConcat(Dropping, u, after, [c] + rest);
    RunConcat(Dropping, u, [c], rest);
    RunOne(Dropping, u, c);
    StringIsTaken(s, u, Strip(text), c);
  }

  lemma StringIsTaken(s: Scan, u: Scan, text: string, c: char)
    requires Between(s) && u == s.(current := text) && (c == ',' || c == ']')
    ensures Next(Dropping, u, c) == s.(result := s.result + NonEmpty([text]), done := c == ']')
  {
    assert [text][1..] == [] && s.result + [] == s.result;
  }

  lemma {:induction false} SpacedItems(s: Scan, before: seq<string>, items: seq<string>, after: seq<string>)
    requires Between(s) && |before| == |items| && |after| == |items|
    requires forall i :: 0 <= i < |items| ==> IsGap(before[i]) && IsGap(after[i])
    ensures Run(Dropping, s, Spaced(before, items, after)) ==
      s.(result := s.result + NonEmpty(StripAll(items)), done := true)
    decreases |items|
  {
    if items == [] {
      RunOne(Dropping, s, ']');
      assert s.result + [] == s.result;
    } else {
      var head, tail := NonEmpty([Strip(items[0])]), NonEmpty(StripAll(items[1..]));
      NonEmptyCons(Strip(items[0]), StripAll(items[1..]));
      if |items| == 1 {
        SpacedItem(s, before[0], items[0], after[0], ']', []);
        assert [']'] + [] == [']'] && head + [] == head;
        assert StripAll(items) == [Strip(items[0])] + [];
      } else {
        SpacedItem(s, before[0], items[0], after[0], ',', Spaced(before[1..], items[1..], after[1..]));
        SpacedItems(s.(result := s.result + head), before[1..], items[1..], after[1..]);
        Assoc(s.result, head, tail);
      }
    }
  }

  /** White space, or any other such text, around the strings changes nothing, and neither does
      what follows the list. */
  lemma ListOfSpaced(before: seq<string>, items: seq<string>, after: seq<string>, rest: string)
    requires |before| == |items| && |after| == |items|
    requires forall i :: 0 <= i < |items| ==> IsGap(before[i]) && IsGap(after[i])
    ensures List(['['] + (Spaced(before, items, after) + rest)) == NonEmpty(StripAll(items))
    ensures '[' !in rest ==> List(rest) == []
  {
    var body, end := Spaced(before, items, after), START.(result := NonEmpty(StripAll(items)), done := true);
    var t := ['['] + (body + rest);
    FindCharAt(t, '[', 0, 0);
    assert t[1..] == body + rest;
    SpacedItems(START, before, items, after);
    assert [] + NonEmpty(StripAll(items)) == NonEmpty(StripAll(items));
    RunConcat(Dropping, START, body, rest);
    RunDone(Dropping, end, rest);
  }
}
