/** The hand-written readers of JSON string lists. */
module StringListScan {
  import opened Text
  import opened JsonText
  import opened ListReader

  // ---------- the reader that keeps escapes (groups and messages) ----------

  /** What the readers return for a text; `field` is the value that the lookup of the
      list under its usual names gives when the text has no bracket of its own. */
  function RawList(json: string, field: string): seq<string> {
    match FindChar(json, '[', 0)
    case Some(k) => Run(Keeping, START, json[k + 1..]).result
    case None => if field != "" && field[0] == '[' then Run(Keeping, START, field[1..]).result else []
  }

  method ParseGroupStringArray(json: string, field: string) returns (result: seq<string>)
    ensures result == RawList(json, field)
  {
    result := [];
    var arrayStr := json;
    var start := FindChar(arrayStr, '[', 0);
    if start.None? {
      if field == "" || field[0] != '[' { return; }
      arrayStr := field;
      start := Some(0);
    }
    ghost var first := start.value + 1;
    var i := start.value + 1;
    var current, inString, escapeNext := "", false, false;
    ghost var s := START;
    while i < |arrayStr|
      invariant first <= i <= |arrayStr|
      invariant s == Scan(result, current, inString, escapeNext, false)
      invariant Run(Keeping, START, arrayStr[first..]) == Run(Keeping, s, arrayStr[i..])
    {
      var c := arrayStr[i];
      RunStep(Keeping, s, arrayStr, i);
      s := Next(Keeping, s, c);
      if escapeNext {
        if inString { current := current + [c]; }
        escapeNext := false;
        i := i + 1;
        continue;
      }
      if c == '\\' {
        escapeNext := true;
        if inString { current := current + [c]; }
        i := i + 1;
        continue;
      }
      if c == '"' {
        inString := !inString;
        if !inString && current != "" {
          result := result + [current];
          current := "";
        }
        i := i + 1;
        continue;
      }
      if inString {
        current := current + [c];
      } else if c == ']' {
        RunDone(Keeping, s, arrayStr[i + 1..]);
        break;
      }
      i := i + 1;
    }
  }

  /** The variant with an iteration cap: the cap is never what ends the loop. */
  method ParseMessageStringArray(json: string, field: string) returns (result: seq<string>)
    ensures result == if json == "" then [] else RawList(json, field)
  {
    result := [];
    if json == "" { return; }
    var arrayStr := json;
    var start := FindChar(arrayStr, '[', 0);
    if start.None? {
      if field == "" || field[0] != '[' { return; }
      arrayStr := field;
      start := Some(0);
    }
    ghost var first := start.value + 1;
    var i := start.value + 1;
    var current, inString, escapeNext := "", false, false;
    ghost var s := START;
    var maxIterations, iterations := |arrayStr| * 2, 0;
    while i < |arrayStr| && iterations < maxIterations
      invariant first <= i <= |arrayStr| && iterations == i - first
      invariant s == Scan(result, current, inString, escapeNext, false)
      invariant Run(Keeping, START, arrayStr[first..]) == Run(Keeping, s, arrayStr[i..])
    {
      iterations := iterations + 1;
      var c := arrayStr[i];
      RunStep(Keeping, s, arrayStr, i);
      s := Next(Keeping, s, c);
      if escapeNext {
        if inString { current := current + [c]; }
        escapeNext := false;
        i := i + 1;
        continue;
      }
      if c == '\\' {
        escapeNext := true;
        if inString { current := current + [c]; }
        i := i + 1;
        continue;
      }
      if c == '"' {
        inString := !inString;
        if !inString && current != "" {
          result := result + [current];
          current := "";
        }
        i := i + 1;
        continue;
      }
      if inString {
        current := current + [c];
      } else if c == ']' {
        RunDone(Keeping, s, arrayStr[i + 1..]);
        break;
      }
      i := i + 1;
    }
  }

  // ---------- what it makes of a printed list ----------

  lemma RawUnit(s: Scan, c: char)
    requires Inside(s)
    ensures Run(Keeping, s, EscapeChar(c)) == s.(current := s.current + EscapeChar(c))
  {
    var t := EscapeChar(c);
    if IsPlain(c) {
      RunPlain(Keeping, s, t);
    } else {
      var u := Next(Keeping, Next(Keeping, s, t[0]), t[1]);
      assert t[1..][1..] == t[2..];
      RunPlain(Keeping, u, t[2..]);
      assert s.current + [t[0]] + [t[1]] + t[2..] == s.current + t;
    }
  }

  lemma {:induction false} RawBody(s: Scan, text: string)
    requires Inside(s)
    ensures Run(Keeping, s, Escape(text)) == s.(current := s.current + Escape(text))
    decreases |text|
  {
    if text == [] {
      assert s.current + [] == s.current;
    } else {
      var unit, rest := EscapeChar(text[0]), Escape(text[1..]);
      RawUnit(s, text[0]);
      RunConcat(Keeping, s, unit, rest);
      RawBody(s.(current := s.current + unit), text[1..]);
      Assoc(s.current, unit, rest);
    }
  }

  lemma RawQuote(s: Scan, text: string)
    requires Between(s)
    ensures Run(Keeping, s, Quote(text)) == s.(result := s.result + NonEmpty([Escape(text)]))
  {
    var inside := s.(inString := true);
    RunOne(Keeping, s, '"');
    RunConcat(Keeping, s, ['"'], Escape(text));
    RawBody(inside, text);
    assert "" + Escape(text) == Escape(text);
    RunConcat(Keeping, s, ['"'] + Escape(text), ['"']);
    RunOne(Keeping, inside.(current := Escape(text)), '"');
    assert [Escape(text)][1..] == [];
  }

  lemma {:induction false} NonEmptyConcat(a: seq<string>, b: seq<string>)
    ensures NonEmpty(a + b) == NonEmpty(a) + NonEmpty(b)
  {
    if a == [] {
      assert a + b == b;
    } else {
      assert (a + b)[1..] == a[1..] + b;
      NonEmptyConcat(a[1..], b);
    }
  }

  lemma {:induction false} RawItems(s: Scan, items: seq<string>)
    requires Between(s)
    ensures Run(Keeping, s, PrintItems(items)) == s.(result := s.result + NonEmpty(EscapeAll(items)))
    decreases |items|
  {
    if items == [] {
      assert s.result + [] == s.result;
    } else {
      RawQuote(s, items[0]);
      if |items| == 1 {
        assert EscapeAll(items) == [Escape(items[0])];
      } else {
        RawItemsCons(s, items);
      }
    }
  }

  lemma {:induction false} RawItemsCons(s: Scan, items: seq<string>)
    requires Between(s) && |items| > 1
    ensures Run(Keeping, s, PrintItems(items)) == s.(result := s.result + NonEmpty(EscapeAll(items)))
    decreases |items|, 0
  {
    var head, tail := NonEmpty([Escape(items[0])]), NonEmpty(EscapeAll(items[1..]));
    var u := s.(result := s.result + head);
    RawQuote(s, items[0]);
    RunOne(Keeping, u, ',');
    RunConcat(Keeping, s, Quote(items[0]), [',']);
    RunConcat(Keeping, s, Quote(items[0]) + [','], PrintItems(items[1..]));
    RawItems(u, items[1..]);
    NonEmptyConcat([Escape(items[0])], EscapeAll(items[1..]));
    Assoc(s.result, head, tail);
  }

  /** Reading a printed list, with any text after it, gives exactly the escaped forms of
      the non-empty strings, in order. */
  lemma RawListOfPrinted(items: seq<string>, rest: string, field: string)
    ensures RawList(PrintList(items) + rest, field) == NonEmpty(EscapeAll(items))
  {
    var t := PrintList(items) + rest;
    var end := START.(result := NonEmpty(EscapeAll(items)));
    FindCharAt(t, '[', 0, 0);
    assert t[1..] == PrintItems(items) + [']'] + rest;
    RawItems(START, items);
    assert [] + NonEmpty(EscapeAll(items)) == NonEmpty(EscapeAll(items));
    RunConcat(Keeping, START, PrintItems(items), [']']);
    RunOne(Keeping, end, ']');
    RunConcat(Keeping, START, PrintItems(items) + [']'], rest);
    RunDone(Keeping, end.(done := true), rest);
  }

  /** A text without a bracket is read through the looked-up field. */
  lemma RawListOfField(json: string, items: seq<string>, rest: string)
    requires '[' !in json
    ensures RawList(json, PrintList(items) + rest) == NonEmpty(EscapeAll(items))
    ensures RawList(json, "") == []
  {
    RawListOfPrinted(items, rest, "");
    FindCharAt(PrintList(items) + rest, '[', 0, 0);
  }

  ghost predicate AllItemsPlain(items: seq<string>) {
    forall i :: 0 <= i < |items| ==> AllPlain(items[i])
  }

  lemma {:induction false} EscapedListIsList(items: seq<string>)
    ensures NonEmpty(EscapeAll(items)) == NonEmpty(items) <==> AllItemsPlain(items)
  {
    if items != [] {
      var rest := items[1..];
      EscapedListIsList(rest);
      EscapeGrows(items[0]);
      assert AllItemsPlain(items) <==> AllPlain(items[0]) && AllItemsPlain(rest) by {
        assert forall i :: 0 < i < |items| ==> items[i] == rest[i - 1];
      }
      assert items[0] != "" ==> Escape(items[0]) != "";
      var a, b := NonEmpty(EscapeAll(items)), NonEmpty(items);
      assert EscapeAll(items)[1..] == EscapeAll(rest);
      if items[0] != "" {
        assert a[1..] == NonEmpty(EscapeAll(rest)) && b[1..] == NonEmpty(rest);
      }
    }
  }

  /** The round trip without unescaping: it holds exactly for strings that need no escape. */
  lemma RawRoundTripIff(items: seq<string>, rest: string, field: string)
    ensures RawList(PrintList(items) + rest, field) == NonEmpty(items) <==> AllItemsPlain(items)
  {
    RawListOfPrinted(items, rest, field);
    EscapedListIsList(items);
  }

  // ---------- lists with white space ----------

  /** Text between the strings of a list: it opens no string, escapes nothing, and does not
      end the list. */
  predicate IsGap(t: string) {
    forall i :: 0 <= i < |t| ==> t[i] != '"' && t[i] != '\\' && t[i] != ']'
  }

  /** Quoted strings with any text between them. */
  function Spaced(gaps: seq<string>, items: seq<string>): string
    requires |gaps| == |items|
  {
    if items == [] then "" else gaps[0] + (Quote(items[0]) + Spaced(gaps[1..], items[1..]))
  }

  lemma {:induction false} GapIsPassed(s: Scan, gap: string)
    requires Between(s) && IsGap(gap)
    ensures Run(Keeping, s, gap) == s
  {
    if gap != [] { GapIsPassed(s, gap[1..]); }
  }

  lemma {:induction false} SpacedItems(s: Scan, gaps: seq<string>, items: seq<string>)
    requires Between(s) && |gaps| == |items| && forall i :: 0 <= i < |gaps| ==> IsGap(gaps[i])
    ensures Run(Keeping, s, Spaced(gaps, items)) == s.(result := s.result + NonEmpty(EscapeAll(items)))
    decreases |items|
  {
    if items == [] {
      assert s.result + [] == s.result;
    } else {
      var head, tail := NonEmpty([Escape(items[0])]), NonEmpty(EscapeAll(items[1..]));
      var u := s.(result := s.result + head);
      GapIsPassed(s, gaps[0]);
      RunConcat(Keeping, s, gaps[0], Quote(items[0]) + Spaced(gaps[1..], items[1..]));
      RawQuote(s, items[0]);
      RunConcat(Keeping, s, Quote(items[0]), Spaced(gaps[1..], items[1..]));
      SpacedItems(u, gaps[1..], items[1..]);
      NonEmptyCons(Escape(items[0]), EscapeAll(items[1..]));
      Assoc(s.result, head, tail);
    }
  }

  /** White space, or any other such text, before, between and behind the strings changes
      nothing. */
  lemma RawListOfSpaced(gaps: seq<string>, items: seq<string>, last: string, rest: string, field: string)
    requires |gaps| == |items| && (forall i :: 0 <= i < |gaps| ==> IsGap(gaps[i])) && IsGap(last)
    ensures RawList(['['] + (Spaced(gaps, items) + (last + ([']'] + rest))), field) == NonEmpty(EscapeAll(items))
  {
    var body, end := Spaced(gaps, items), START.(result := NonEmpty(EscapeAll(items)));
    var t := ['['] + (body + (last + ([']'] + rest)));
    FindCharAt(t, '[', 0, 0);
    assert t[1..] == body + (last + ([']'] + rest));
    SpacedItems(START, gaps, items);
    assert [] + NonEmpty(EscapeAll(items)) == NonEmpty(EscapeAll(items));
    RunConcat(Keeping, START, body, last + ([']'] + rest));
    GapIsPassed(end, last);
    RunConcat(Keeping, end, last, [']'] + rest);
    assert ([']'] + rest)[1..] == rest;
    RunDone(Keeping, end.(done := true), rest);
  }
}
