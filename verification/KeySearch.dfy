/** Searching printed JSON for a quoted name: where the search stops, and which strings can
    mislead it. */
module KeySearch {
  import opened Text
  import opened JsonText

  function Quoted(key: string): string {
    ['"'] + key + ['"']
  }

  /** A name that is written as it is and cannot be mistaken for punctuation. */
  predicate IsName(key: string) {
    AllPlain(key) && key != "" && !IsSeparator(key[0])
  }

  /** What can follow a string in printed text. */
  predicate IsSeparator(c: char) {
    c == ',' || c == ':' || c == ']' || c == '}'
  }

  predicate IsIdentifier(s: string) {
    s != "" && forall i :: 0 <= i < |s| ==> 'a' <= s[i] <= 'z' || 'A' <= s[i] <= 'Z' || s[i] == '_'
  }

  lemma IdentifierIsName(s: string)
    requires IsIdentifier(s)
    ensures IsName(s) && ':' !in s && '[' !in s
  {
  }

  predicate EndsWith(s: string, end: string) {
    |end| <= |s| && s[|s| - |end|..] == end
  }

  /** A string in whose printed form the quoted name occurs: the name itself, or one that
      ends in a quotation mark and the name. */
  predicate Mimics(s: string, key: string) {
    s == key || EndsWith(s, ['"'] + key)
  }

  /** Some name or string of a tree mimics the name. */
  predicate Mentions(j: Json, key: string)
    decreases j, 1
  {
    match j
    case Literal(_) => false
    case Str(s) => Mimics(s, key)
    case Arr(items) => MentionsValues(items, key)
    case Obj(members) => MentionsMembers(members, key)
  }

  predicate MentionsValues(items: seq<Json>, key: string)
    decreases items, 0
  {
    items != [] && (Mentions(items[0], key) || MentionsValues(items[1..], key))
  }

  predicate MentionsMembers(members: seq<Member>, key: string)
    decreases members, 0
  {
    members != [] && (MentionsMember(members[0], key) || MentionsMembers(members[1..], key))
  }

  predicate MentionsMember(m: Member, key: string)
    decreases m, 0
  {
    Mimics(m.name, key) || Mentions(m.value, key)
  }

  // ---------- occurrences that start in a text ----------

  /** No occurrence of the pattern in `a + b` starts in `a`. */
  ghost predicate NoStart(a: string, b: string, pattern: string) {
    forall i :: 0 <= i < |a| ==> !OccursAt(a + b, pattern, i)
  }

  lemma NoStartConcat(a: string, b: string, c: string, pattern: string)
    ensures NoStart(a + b, c, pattern) <==> NoStart(a, b + c, pattern) && NoStart(b, c, pattern)
  {
    Assoc(a, b, c);
    forall i: nat ensures OccursAt((a + b) + c, pattern, |a| + i) <==> OccursAt(b + c, pattern, i) {
      OccursLater(a, b + c, pattern, i);
    }
    if NoStart(a + b, c, pattern) {
      forall i | 0 <= i < |b| ensures !OccursAt(b + c, pattern, i) {
        assert |a| + i < |a + b|;
      }
    }
    if NoStart(a, b + c, pattern) && NoStart(b, c, pattern) {
      forall i | 0 <= i < |a + b| ensures !OccursAt((a + b) + c, pattern, i) {
        if i >= |a| { assert !OccursAt(b + c, pattern, i - |a|); }
      }
    }
  }

  lemma OccursLater(a: string, b: string, pattern: string, i: nat)
    ensures OccursAt(a + b, pattern, |a| + i) <==> OccursAt(b, pattern, i)
  {
    if i + |pattern| <= |b| { assert (a + b)[|a| + i..|a| + i + |pattern|] == b[i..i + |pattern|]; }
  }

  /** The search stops at the first place the pattern starts. */
  lemma FoundIff(a: string, b: string, pattern: string)
    requires OccursAt(b, pattern, 0)
    ensures FindText(a + b, pattern, 0) == Some(|a|) <==> NoStart(a, b, pattern)
  {
    OccursLater(a, b, pattern, 0);
    FindTextFirst(a + b, pattern, 0);
  }

  lemma AbsentTextIff(t: string, pattern: string)
    requires pattern != ""
    ensures FindText(t, pattern, 0) == None <==> NoStart(t, "", pattern)
  {
    assert t + "" == t;
    FindTextFirst(t, pattern, 0);
  }

  lemma OccursChars(t: string, pattern: string, i: nat)
    requires OccursAt(t, pattern, i)
    ensures forall k :: 0 <= k < |pattern| ==> t[i + k] == pattern[k]
  {
    forall k | 0 <= k < |pattern| ensures t[i + k] == pattern[k] {
      assert t[i..i + |pattern|][k] == t[i + k];
    }
  }

  lemma StopsAt(start: string, key: string, more: string)
    requires NoStart(start, Quoted(key) + more, Quoted(key))
    ensures FindText(start + (Quoted(key) + more), Quoted(key), 0) == Some(|start|)
    ensures (start + (Quoted(key) + more))[|start|..] == Quoted(key) + more
  {
    assert (Quoted(key) + more)[0..|Quoted(key)|] == Quoted(key);
    FoundIff(start, Quoted(key) + more, Quoted(key));
  }

  /** Text without quotation marks starts no quoted name. */
  lemma NoQuoteNoStart(a: string, b: string, key: string)
    requires '"' !in a
    ensures NoStart(a, b, Quoted(key))
  {
    forall i | 0 <= i < |a| ensures !OccursAt(a + b, Quoted(key), i) {
      assert (a + b)[i] == a[i] != Quoted(key)[0];
      if OccursAt(a + b, Quoted(key), i) { OccursChars(a + b, Quoted(key), i); }
    }
  }

  // ---------- strings ----------

  /** Inside a printed string a quotation mark follows a backslash. */
  lemma {:induction false} QuotesAreEscaped(s: string, p: nat)
    requires p < |Escape(s)| && Escape(s)[p] == '"'
    ensures p > 0 && Escape(s)[p - 1] == '\\'
  {
    var unit := EscapeChar(s[0]);
    if p >= |unit| {
      assert Escape(s)[p] == Escape(s[1..])[p - |unit|];
      QuotesAreEscaped(s[1..], p - |unit|);
    }
  }

  lemma {:induction false} EscapeSnoc(s: string, c: char)
    ensures Escape(s + [c]) == Escape(s) + EscapeChar(c)
  {
    if s == [] {
      assert s + [c] == [c] && [c][1..] == [];
    } else {
      assert (s + [c])[1..] == s[1..] + [c];
      EscapeSnoc(s[1..], c);
    }
  }

  lemma EndsWithSnoc(s: string, c: char, end: string, d: char)
    ensures EndsWith(s + [c], end + [d]) <==> c == d && EndsWith(s, end)
  {
    if |end| <= |s| {
      assert (s + [c])[|s| - |end|..] == s[|s| - |end|..] + [c];
      if s[|s| - |end|..] + [c] == end + [d] {
        assert (s[|s| - |end|..] + [c])[..|end|] == (end + [d])[..|end|];
      }
    }
  }

  /** A text that ends in a longer piece ends in the piece's last characters. */
  lemma EndsWithAt(s: string, unit: string, end: string, k: nat)
    requires EndsWith(s + unit, end) && k < |unit| && k < |end|
    ensures unit[|unit| - 1 - k] == end[|end| - 1 - k]
  {
    var t := s + unit;
    assert t[|t| - |end|..][|end| - 1 - k] == t[|t| - 1 - k];
  }

  /** Ending in a quotation mark and a plain text is the same before and after escaping. */
  lemma {:induction false} EscapeKeepsEnd(s: string, key: string)
    requires AllPlain(key)
    ensures EndsWith(Escape(s), ['"'] + key) <==> EndsWith(s, ['"'] + key)
    decreases |s|
  {
    if s != [] {
      var front, c := s[..|s| - 1], s[|s| - 1];
      assert s == front + [c];
      EscapeSnoc(front, c);
      UnitShape(c);
      if key != [] { EscapeKeepsEnd(front, key[..|key| - 1]); }
      EndStep(Escape(front), front, EscapeChar(c), c, key);
    }
  }

  /** One character more, escaped in the first text only. */
  lemma EndStep(escaped: string, front: string, unit: string, c: char, key: string)
    requires AllPlain(key) && UnitOf(unit, c)
    requires key != [] ==>
      (EndsWith(escaped, ['"'] + key[..|key| - 1]) <==> EndsWith(front, ['"'] + key[..|key| - 1]))
    ensures EndsWith(escaped + unit, ['"'] + key) <==> EndsWith(front + [c], ['"'] + key)
  {
    if key == [] {
      assert ['"'] + key == ['"'];
      EndsWithOne(escaped + unit, '"');
      EndsWithOne(front + [c], '"');
    } else if IsPlain(c) {
      SameEnds(escaped, front, c, key);
    } else {
      UnitIsNoEnd(escaped, unit, ['"'] + key);
      if EndsWith(front + [c], ['"'] + key) { EndsWithAt(front, [c], ['"'] + key, 0); }
    }
  }

  /** One plain character more on two texts. */
  lemma SameEnds(a: string, b: string, c: char, key: string)
    requires key != []
    requires EndsWith(a, ['"'] + key[..|key| - 1]) <==> EndsWith(b, ['"'] + key[..|key| - 1])
    ensures EndsWith(a + [c], ['"'] + key) <==> EndsWith(b + [c], ['"'] + key)
  {
    var rest, last := key[..|key| - 1], key[|key| - 1];
    assert ['"'] + key == (['"'] + rest) + [last];
    EndsWithSnoc(a, c, ['"'] + rest, last);
    EndsWithSnoc(b, c, ['"'] + rest, last);
  }

  lemma EndsWithOne(s: string, c: char)
    ensures EndsWith(s, [c]) <==> s != [] && s[|s| - 1] == c
  {
    if s != [] { assert s[|s| - 1..] == [s[|s| - 1]]; }
  }

  /** The escaped form of a character: a plain one as it is, any other behind a backslash, and
      only that of a quotation mark has one, at its end. */
  predicate UnitOf(unit: string, c: char) {
    && unit != [] && (unit[|unit| - 1] == '"' <==> c == '"')
    && (if IsPlain(c) then unit == [c]
        else |unit| >= 2 && unit[0] == '\\' && forall j :: 1 <= j < |unit| - 1 ==> unit[j] != '"')
  }

  lemma UnitShape(c: char)
    ensures UnitOf(EscapeChar(c), c)
  {
  }

  /** An escaped character is never part of a plain text. */
  lemma UnitIsNoEnd(front: string, unit: string, end: string)
    requires |unit| >= 2 && unit[0] == '\\' && forall j :: 1 <= j < |unit| - 1 ==> unit[j] != '"'
    requires |end| >= 2 && end[0] == '"' && '\\' !in end
    ensures !EndsWith(front + unit, end)
  {
    var k: nat := if |unit| <= |end| then |unit| - 1 else |end| - 1;
    if EndsWith(front + unit, end) { EndsWithAt(front, unit, end, k); }
  }

  lemma {:induction false} BackslashUnlessPlain(s: string)
    ensures AllPlain(s) || '\\' in Escape(s)
  {
    if s != [] {
      BackslashUnlessPlain(s[1..]);
      EscapeUnitShape(s[0]);
      if IsPlain(s[0]) && AllPlain(s[1..]) { assert forall i :: 0 < i < |s| ==> s[i] == s[1..][i - 1]; }
    }
  }

  lemma EscapeIsNameIff(s: string, key: string)
    requires AllPlain(key)
    ensures Escape(s) == key <==> s == key
  {
    EscapeGrows(s);
    EscapeGrows(key);
    BackslashUnlessPlain(s);
  }

  /** The printed form ends in the quoted name exactly when the string mimics it. */
  lemma QuoteEndsIff(s: string, key: string)
    requires IsName(key)
    ensures EndsWith(Quote(s), Quoted(key)) <==> Mimics(s, key)
  {
    var e := Escape(s);
    EscapeKeepsEnd(s, key);
    EscapeIsNameIff(s, key);
    EndsWithSnoc(['"'] + e, '"', ['"'] + key, '"');
    EndsAfterQuote(e, key);
  }

  lemma EndsAfterQuote(e: string, key: string)
    ensures EndsWith(['"'] + e, ['"'] + key) <==> e == key || EndsWith(e, ['"'] + key)
  {
    if |key| == |e| {
      assert (['"'] + e)[0..] == ['"'] + e;
      assert (['"'] + e)[1..] == e && (['"'] + key)[1..] == key;
    } else if |key| < |e| {
      assert (['"'] + e)[|e| - |key|..] == e[|e| - |key| - 1..];
    }
  }

  lemma InnerQuotes(s: string)
    ensures var q := Quote(s);
      q[|q| - 1] == '"' && forall p :: 1 <= p < |q| - 1 && q[p] == '"' ==> q[p - 1] == '\\'
  {
    var q := Quote(s);
    forall p | 1 <= p < |q| - 1 && q[p] == '"' ensures q[p - 1] == '\\' {
      assert Escape(s)[p - 1] == q[p];
      QuotesAreEscaped(s, p - 1);
      assert Escape(s)[p - 2] == q[p - 1];
    }
  }

  /** An occurrence that starts in a quoted text ends with it. */
  lemma OccurrenceEnds(q: string, b: string, key: string, i: nat)
    requires |q| >= 2 && q[|q| - 1] == '"'
    requires forall p :: 1 <= p < |q| - 1 && q[p] == '"' ==> q[p - 1] == '\\'
    requires IsName(key) && (b == "" || IsSeparator(b[0]))
    requires i < |q| && OccursAt(q + b, Quoted(key), i)
    ensures EndsWith(q, Quoted(key))
  {
    var t, n, k := q + b, |q|, |key|;
    OccursChars(t, Quoted(key), i);
    forall m | i + 1 <= m <= i + k ensures t[m] == key[m - i - 1] {
      assert t[i + (m - i)] == Quoted(key)[m - i];
    }
    assert t[i + (k + 1)] == Quoted(key)[k + 1] == '"' && t[i + k] == key[k - 1] && t[i + 1] == key[0];
    assert forall m :: 0 <= m < n ==> t[m] == q[m];
    assert t[n - 1] == '"' && (b != "" ==> t[n] == b[0]);
    assert i + (k + 1) == n - 1;
    assert t[i..i + (k + 2)] == q[i..];
  }

  lemma QuoteStart(s: string, b: string, key: string)
    requires IsName(key) && (b == "" || IsSeparator(b[0]))
    ensures NoStart(Quote(s), b, Quoted(key)) <==> !Mimics(s, key)
  {
    QuoteEndsIff(s, key);
    InnerQuotes(s);
    EndIsStart(Quote(s), b, key);
    forall i | 0 <= i < |Quote(s)| && OccursAt(Quote(s) + b, Quoted(key), i) ensures EndsWith(Quote(s), Quoted(key)) {
      OccurrenceEnds(Quote(s), b, key, i);
    }
  }

  lemma EndIsStart(q: string, b: string, key: string)
    ensures EndsWith(q, Quoted(key)) ==> !NoStart(q, b, Quoted(key))
  {
    if EndsWith(q, Quoted(key)) {
      var i := |q| - |Quoted(key)|;
      assert (q + b)[i..i + |Quoted(key)|] == q[i..];
      assert OccursAt(q + b, Quoted(key), i);
    }
  }

  // ---------- trees ----------

  lemma CharThen(c: char, a: string, b: string, key: string)
    requires c != '"'
    ensures NoStart([c] + a, b, Quoted(key)) <==> NoStart(a, b, Quoted(key))
  {
    NoStartConcat([c], a, b, Quoted(key));
    NoQuoteNoStart([c], a + b, key);
  }

  lemma ThenChar(a: string, c: char, b: string, key: string)
    requires c != '"'
    ensures NoStart(a + [c], b, Quoted(key)) <==> NoStart(a, [c] + b, Quoted(key))
  {
    NoStartConcat(a, [c], b, Quoted(key));
    NoQuoteNoStart([c], b, key);
  }

  /** Two texts with a separator between them. */
  lemma JoinedStart(a: string, sep: char, b: string, c: string, key: string)
    requires sep != '"'
    ensures NoStart(a + [sep] + b, c, Quoted(key)) <==>
      NoStart(a, [sep] + (b + c), Quoted(key)) && NoStart(b, c, Quoted(key))
  {
    NoStartConcat(a + [sep], b, c, Quoted(key));
    ThenChar(a, sep, b + c, key);
  }

  lemma EnclosedStart(open: char, a: string, close: char, b: string, key: string)
    requires open != '"' && close != '"'
    ensures NoStart([open] + a + [close], b, Quoted(key)) <==> NoStart(a, [close] + b, Quoted(key))
  {
    ThenChar([open] + a, close, b, key);
    CharThen(open, a, [close] + b, key);
  }

  /** The quoted name starts somewhere in a printed value exactly when the value mentions it. */
  lemma {:induction false} ValueStart(j: Json, b: string, key: string)
    requires IsName(key) && (b == "" || IsSeparator(b[0]))
    ensures NoStart(Print(j), b, Quoted(key)) <==> !Mentions(j, key)
    decreases j, 1
  {
    match j
    case Literal(text) => NoQuoteNoStart(text, b, key);
    case Str(s) => QuoteStart(s, b, key);
    case Arr(items) =>
      ValuesStart(items, [']'] + b, key);
      EnclosedStart('[', PrintValues(items), ']', b, key);
    case Obj(members) =>
      MembersStart(members, ['}'] + b, key);
      EnclosedStart('{', PrintMembers(members), '}', b, key);
  }

  lemma {:induction false} ValuesStart(items: seq<Json>, b: string, key: string)
    requires IsName(key) && (b == "" || IsSeparator(b[0]))
    ensures NoStart(PrintValues(items), b, Quoted(key)) <==> !MentionsValues(items, key)
    decreases items, 0
  {
    if |items| == 1 {
      ValueStart(items[0], b, key);
    } else if items != [] {
      ValueStart(items[0], [','] + (PrintValues(items[1..]) + b), key);
      ValuesStart(items[1..], b, key);
      JoinedStart(Print(items[0]), ',', PrintValues(items[1..]), b, key);
    }
  }

  lemma {:induction false} MemberStart(m: Member, b: string, key: string)
    requires IsName(key) && (b == "" || IsSeparator(b[0]))
    ensures NoStart(PrintMember(m), b, Quoted(key)) <==> !MentionsMember(m, key)
    decreases m, 0
  {
    QuoteStart(m.name, [':'] + (Print(m.value) + b), key);
    ValueStart(m.value, b, key);
    JoinedStart(Quote(m.name), ':', Print(m.value), b, key);
  }

  lemma {:induction false} MembersStart(members: seq<Member>, b: string, key: string)
    requires IsName(key) && (b == "" || IsSeparator(b[0]))
    ensures NoStart(PrintMembers(members), b, Quoted(key)) <==> !MentionsMembers(members, key)
    decreases members, 0
  {
    if |members| == 1 {
      MemberStart(members[0], b, key);
    } else if members != [] {
      MemberStart(members[0], [','] + (PrintMembers(members[1..]) + b), key);
      MembersStart(members[1..], b, key);
      JoinedStart(PrintMember(members[0]), ',', PrintMembers(members[1..]), b, key);
    }
  }

  // ---------- one member of an object ----------

  /** The text before a member. */
  function Head(pre: seq<Member>): string {
    ['{'] + if pre == [] then "" else PrintMembers(pre) + [',']
  }

  /** The text after a member. */
  function Tail(post: seq<Member>): string {
    (if post == [] then "" else [','] + PrintMembers(post)) + ['}']
  }

  lemma {:induction false} PrintMembersAround(pre: seq<Member>, m: Member, post: seq<Member>)
    ensures PrintMembers(pre + [m] + post) ==
      (if pre == [] then "" else PrintMembers(pre) + [','])
      + (PrintMember(m) + if post == [] then "" else [','] + PrintMembers(post))
  {
    var all := pre + [m] + post;
    if pre == [] {
      assert all == [m] + post && all[1..] == post;
    } else {
      assert all[1..] == pre[1..] + [m] + post;
      PrintMembersAround(pre[1..], m, post);
    }
  }

  lemma PrintAround(pre: seq<Member>, m: Member, post: seq<Member>)
    ensures Print(Obj(pre + [m] + post)) == Head(pre) + (PrintMember(m) + Tail(post))
  {
    var h := if pre == [] then "" else PrintMembers(pre) + [','];
    var t := if post == [] then "" else [','] + PrintMembers(post);
    PrintMembersAround(pre, m, post);
    assert Print(Obj(pre + [m] + post)) == ['{'] + PrintMembers(pre + [m] + post) + ['}'];
    Enclose(h, PrintMember(m), t);
  }

  lemma Enclose(h: string, m: string, t: string)
    ensures ['{'] + (h + (m + t)) + ['}'] == (['{'] + h) + (m + (t + ['}']))
  {
  }

  lemma HeadStart(pre: seq<Member>, b: string, key: string)
    requires IsName(key)
    ensures NoStart(Head(pre), b, Quoted(key)) <==> !MentionsMembers(pre, key)
  {
    if pre == [] {
      NoQuoteNoStart(Head(pre), b, key);
    } else {
      MembersStart(pre, [','] + b, key);
      CharThen('{', PrintMembers(pre) + [','], b, key);
      ThenChar(PrintMembers(pre), ',', b, key);
    }
  }

  /** In a printed object the search for the quoted name of a member stops on that member if
      and only if no name or string before it mimics the name. */
  lemma KeySearchIff(pre: seq<Member>, m: Member, post: seq<Member>, rest: string)
    requires IsName(m.name)
    ensures FindText(Print(Obj(pre + [m] + post)) + rest, Quoted(m.name), 0) == Some(|Head(pre)|)
      <==> !MentionsMembers(pre, m.name)
  {
    var body := PrintMember(m) + Tail(post) + rest;
    PrintAround(pre, m, post);
    EscapeGrows(m.name);
    assert Quote(m.name) == Quoted(m.name);
    assert body[0..|Quoted(m.name)|] == Quoted(m.name);
    assert Print(Obj(pre + [m] + post)) + rest == Head(pre) + body;
    HeadStart(pre, body, m.name);
    FoundIff(Head(pre), body, Quoted(m.name));
  }

  lemma PrintedName(key: string)
    requires AllPlain(key)
    ensures Quote(key) == Quoted(key)
  {
    EscapeGrows(key);
  }

  lemma Dropped(head: string, body: string)
    ensures (head + body)[|head|..] == body
  {
  }

  lemma Regrouped(a: string, b: string, c: string, d: string, e: string)
    ensures (a + (((b + [':']) + c) + d)) + e == a + ((b + [':']) + (c + (d + e)))
  {
  }

  /** The printed text from a member on. */
  lemma KeyText(pre: seq<Member>, m: Member, post: seq<Member>, rest: string)
    requires AllPlain(m.name)
    ensures var json := Print(Obj(pre + [m] + post)) + rest;
      && |Head(pre)| <= |json|
      && json[|Head(pre)|..] == (Quoted(m.name) + [':']) + (Print(m.value) + (Tail(post) + rest))
  {
    PrintAround(pre, m, post);
    PrintedName(m.name);
    Regrouped(Head(pre), Quoted(m.name), Print(m.value), Tail(post), rest);
    Dropped(Head(pre), (Quoted(m.name) + [':']) + (Print(m.value) + (Tail(post) + rest)));
  }

  /** Where the search stops, the member's value follows. */
  lemma KeyFound(pre: seq<Member>, m: Member, post: seq<Member>, rest: string)
    requires IsName(m.name) && !MentionsMembers(pre, m.name)
    ensures var json := Print(Obj(pre + [m] + post)) + rest;
      && FindText(json, Quoted(m.name), 0) == Some(|Head(pre)|)
      && json[|Head(pre)|..] == (Quoted(m.name) + [':']) + (Print(m.value) + (Tail(post) + rest))
  {
    KeySearchIff(pre, m, post, rest);
    KeyText(pre, m, post, rest);
  }
}
