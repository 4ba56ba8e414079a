/** Reading the invitee ids of a group invitation out of its JSON parameter: a search for
    the field, a count of brackets that ignores strings, and the list reader. */
module GroupInviteScan {
  import opened Text
  import opened JsonText
  import opened ListReader
  import opened StringListScan
  import opened KeySearch

  function Step(c: char, count: int): int {
    if c == '[' then count + 1 else if c == ']' then count - 1 else count
  }

  /** How many characters the count needs to come down to zero. */
  function BracketEnd(t: string, count: int): (r: Option<nat>)
    ensures r.Some? ==> r.value <= |t|
  {
    if t == "" then None
    else if Step(t[0], count) == 0 then Some(1)
    else
      match BracketEnd(t[1..], Step(t[0], count))
      case None => None
      case Some(k) => Some(k + 1)
  }

  /** The list whose opening bracket is at `start`. */
  function ListAt(json: string, start: nat): seq<string>
    requires start < |json|
  {
    match BracketEnd(json[start + 1..], 1)
    case None => []
    case Some(k) => RawList(json[start..start + 1 + k], "")
  }

  /** The ids of one named field. */
  function FieldIds(json: string, name: string): seq<string> {
    match FindText(json, Quoted(name), 0)
    case None => []
    case Some(field) => IdsFrom(json, field)
  }

  function IdsFrom(json: string, field: nat): seq<string>
    requires field <= |json|
  {
    match FindChar(json, ':', field)
    case None => []
    case Some(colon) =>
      match FindChar(json, '[', colon)
      case None => []
      case Some(start) => ListAt(json, start)
  }

  const FIELD := "group_invite_member_param_identifier_array"
  const FALLBACKS := ["identifier_array", "userList", "user_list"]

  function FirstNonEmptyField(json: string, names: seq<string>): seq<string> {
    if names == [] then []
    else
      var ids := FieldIds(json, names[0]);
      if ids != [] then ids else FirstNonEmptyField(json, names[1..])
  }

  function LookupIds(json: string, names: seq<string>): seq<string> {
    var ids := FirstNonEmptyField(json, names);
    if ids == [] && json != "" && json[0] == '[' then RawList(json, "") else ids
  }

  function InviteIds(json: string): seq<string> {
    LookupIds(json, [FIELD] + FALLBACKS)
  }

  /** The bracket-counting loop: position after the matching bracket, if the count closes. */
  method FindBracketEnd(json: string, start: nat) returns (closed: bool, end: nat)
    requires start < |json|
    ensures closed <==> BracketEnd(json[start + 1..], 1).Some?
    ensures closed ==> end == start + 1 + BracketEnd(json[start + 1..], 1).value
  {
    var count := 1;
    end := start + 1;
    while end < |json| && count > 0
      invariant start + 1 <= end <= |json| && count >= 0
      invariant BracketEnd(json[start + 1..], 1) ==
        if count == 0 then Some(end - start - 1)
        else match BracketEnd(json[end..], count) { case None => None case Some(k) => Some(end - start - 1 + k) }
    {
      assert json[end..][0] == json[end] && json[end..][1..] == json[end + 1..];
      if json[end] == '[' {
        count := count + 1;
      } else if json[end] == ']' {
        count := count - 1;
      }
      end := end + 1;
    }
    closed := count == 0;
  }

  method ExtractListAt(json: string, start: nat) returns (ids: seq<string>)
    requires start < |json|
    ensures ids == ListAt(json, start)
  {
    ids := [];
    var closed, end := FindBracketEnd(json, start);
    if closed { ids := ParseGroupStringArray(json[start..end], ""); }
  }

  method ExtractFieldIds(json: string, name: string) returns (ids: seq<string>)
    ensures ids == FieldIds(json, name)
  {
    ids := [];
    var field := FindText(json, Quoted(name), 0);
    if field.None? { return; }
    var colon := FindChar(json, ':', field.value);
    if colon.None? { return; }
    var start := FindChar(json, '[', colon.value);
    if start.None? { return; }
    ids := ExtractListAt(json, start.value);
  }

  method ExtractInviteIds(json: string) returns (ids: seq<string>)
    ensures ids == InviteIds(json)
  {
    ids := TryFields(json, [FIELD] + FALLBACKS);
  }

  /** Try the names in turn, then the whole text when it is itself a list. */
  method TryFields(json: string, names: seq<string>) returns (ids: seq<string>)
    ensures ids == LookupIds(json, names)
  {
    ids := [];
    var i := 0;
    while i < |names| && ids == []
      invariant 0 <= i <= |names|
      invariant FirstNonEmptyField(json, names) == if ids != [] then ids else FirstNonEmptyField(json, names[i..])
    {
      assert names[i..][1..] == names[i + 1..];
      ids := ExtractFieldIds(json, names[i]);
      i := i + 1;
    }
    if ids == [] && json != "" && json[0] == '[' {
      ids := ParseGroupStringArray(json, "");
    }
  }

  // ---------- what the count makes of a printed list ----------

  /** The count after a text, unless it reaches zero inside it. */
  function Walk(t: string, count: int): Option<int> {
    if t == "" then Some(count)
    else if Step(t[0], count) == 0 then None
    else Walk(t[1..], Step(t[0], count))
  }

  lemma {:induction false} WalkConcat(a: string, b: string, count: int)
    ensures Walk(a + b, count) == match Walk(a, count) { case None => None case Some(d) => Walk(b, d) }
  {
    if a == "" {
      assert a + b == b;
    } else {
      assert (a + b)[1..] == a[1..] + b;
      if Step(a[0], count) != 0 { WalkConcat(a[1..], b, Step(a[0], count)); }
    }
  }

  /** The count stops inside a text, or the text can be skipped. */
  lemma {:induction false} BracketEndSkips(a: string, b: string, count: int)
    ensures match Walk(a, count)
      case None => BracketEnd(a + b, count).Some? && BracketEnd(a + b, count).value <= |a|
      case Some(d) =>
        BracketEnd(a + b, count) == match BracketEnd(b, d) { case None => None case Some(k) => Some(|a| + k) }
  {
    if a == "" {
      assert a + b == b;
    } else {
      assert (a + b)[1..] == a[1..] + b;
      if Step(a[0], count) != 0 { BracketEndSkips(a[1..], b, Step(a[0], count)); }
    }
  }

  lemma {:induction false} WalkNeutral(t: string, count: int)
    requires count != 0 && '[' !in t && ']' !in t
    ensures Walk(t, count) == Some(count)
  {
    if t != "" { WalkNeutral(t[1..], count); }
  }

  lemma WalkUnit(c: char, count: int)
    requires count != 0
    ensures Walk(EscapeChar(c), count) == Walk([c], count)
  {
    if !IsPlain(c) {
      assert '[' !in EscapeChar(c) && ']' !in EscapeChar(c);
      WalkNeutral(EscapeChar(c), count);
      WalkNeutral([c], count);
    }
  }

  lemma {:induction false} WalkNonZero(t: string, count: int)
    requires count > 0
    ensures Walk(t, count).Some? ==> Walk(t, count).value > 0
  {
    if t != "" && Step(t[0], count) != 0 { WalkNonZero(t[1..], Step(t[0], count)); }
  }

  lemma {:induction false} WalkEscape(s: string, count: int)
    requires count > 0
    ensures Walk(Escape(s), count) == Walk(s, count)
  {
    if s != "" {
      WalkUnit(s[0], count);
      WalkConcat(EscapeChar(s[0]), Escape(s[1..]), count);
      WalkConcat([s[0]], s[1..], count);
      assert [s[0]] + s[1..] == s;
      WalkNonZero([s[0]], count);
      if Walk([s[0]], count).Some? { WalkEscape(s[1..], Walk([s[0]], count).value); }
    }
  }

  lemma WalkQuote(s: string, count: int)
    requires count > 0
    ensures Walk(Quote(s), count) == Walk(s, count)
  {
    WalkNeutral(['"'], count);
    WalkConcat(['"'], Escape(s), count);
    WalkEscape(s, count);
    WalkConcat(['"'] + Escape(s), ['"'], count);
    WalkNonZero(s, count);
    if Walk(s, count).Some? { WalkNeutral(['"'], Walk(s, count).value); }
  }

  /** All the ids in one text. */
  function Joined(ids: seq<string>): string {
    if ids == [] then "" else ids[0] + Joined(ids[1..])
  }

  /** Only the brackets inside the ids count. */
  lemma {:induction false} WalkItems(ids: seq<string>, count: int)
    requires count > 0
    ensures Walk(PrintItems(ids), count) == Walk(Joined(ids), count)
  {
    if ids != [] {
      WalkQuote(ids[0], count);
      WalkConcat(ids[0], Joined(ids[1..]), count);
      WalkNonZero(ids[0], count);
      if |ids| == 1 {
        assert Joined(ids) == ids[0] + "" == ids[0];
      } else {
        WalkConcat(Quote(ids[0]), [','], count);
        WalkConcat(Quote(ids[0]) + [','], PrintItems(ids[1..]), count);
        if Walk(ids[0], count).Some? {
          WalkNeutral([','], Walk(ids[0], count).value);
          WalkItems(ids[1..], Walk(ids[0], count).value);
        }
      }
    }
  }

  /** Read in order, no closing bracket of the ids is unmatched, and neither is an opening one. */
  predicate Balanced(ids: seq<string>) {
    Walk(Joined(ids), 1) == Some(1)
  }

  /** The count stops on the list's own closing bracket exactly when the brackets inside
      the ids match each other. */
  lemma BracketEndIff(ids: seq<string>, rest: string)
    ensures BracketEnd(PrintItems(ids) + ([']'] + rest), 1) == Some(|PrintItems(ids)| + 1) <==> Balanced(ids)
  {
    var tail := [']'] + rest;
    WalkItems(ids, 1);
    WalkNonZero(Joined(ids), 1);
    BracketEndSkips(PrintItems(ids), tail, 1);
    assert tail[1..] == rest;
    match Walk(Joined(ids), 1)
    case None =>
    case Some(d) =>
      if d != 1 {
        assert BracketEnd(tail, d).Some? ==> BracketEnd(tail, d).value != 1 by { BracketEndPositive(rest, d - 1); }
      }
  }

  lemma BracketEndPositive(t: string, count: int)
    ensures BracketEnd(t, count).Some? ==> BracketEnd(t, count).value > 0
  {
  }

  /** The count closes: on the list's own bracket, or, when opening brackets inside the ids
      are left over, on a later one in the text that follows. */
  predicate Closes(ids: seq<string>, rest: string) {
    match Walk(Joined(ids), 1)
    case None => false
    case Some(d) => d == 1 || BracketEnd(rest, d - 1).Some?
  }

  lemma {:induction false} RunGrows(s: Scan, t: string)
    ensures |Run(Keeping, s, t).result| >= |s.result|
    decreases |t|
  {
    if t != [] { RunGrows(Next(Keeping, s, t[0]), t[1..]); }
  }

  /** A prefix yields no more strings than the whole. */
  lemma RawPrefix(s: Scan, t: string, r: nat)
    requires r <= |t|
    ensures |Run(Keeping, s, t[..r]).result| <= |Run(Keeping, s, t).result|
  {
    assert t == t[..r] + t[r..];
    RunConcat(Keeping, s, t[..r], t[r..]);
    RunGrows(Run(Keeping, s, t[..r]), t[r..]);
  }

  /** Up to its closing quotation mark a string yields nothing. */
  lemma OpenQuoteYieldsNothing(s: Scan, text: string, r: nat)
    requires Between(s) && r <= 1 + |Escape(text)|
    ensures |Run(Keeping, s, (['"'] + Escape(text))[..r]).result| <= |s.result|
  {
    RunOne(Keeping, s, '"');
    RunConcat(Keeping, s, ['"'], Escape(text));
    RawBody(s.(inString := true), text);
    RawPrefix(s, ['"'] + Escape(text), r);
  }

  /** The count stops inside the first id. */
  lemma CutInside(s: Scan, ids: seq<string>, b: string, count: int, r: nat)
    requires Between(s) && count > 0 && ids != [] && Walk(ids[0], count).None?
    requires BracketEnd(PrintItems(ids) + b, count) == Some(r)
    ensures r <= |PrintItems(ids)| && |Run(Keeping, s, PrintItems(ids)[..r]).result| < |s.result| + |NonEmpty(ids)|
  {
    var open := ['"'] + Escape(ids[0]);
    var more := ['"'] + if |ids| == 1 then "" else [','] + PrintItems(ids[1..]);
    WalkOpen(ids[0], count);
    BracketEndSkips(open, more + b, count);
    ItemsOpen(ids);
    PrefixOfJoin(open, more, b, r);
    OpenQuoteYieldsNothing(s, ids[0], r);
  }

  lemma WalkOpen(s: string, count: int)
    requires count > 0
    ensures Walk(['"'] + Escape(s), count) == Walk(s, count)
  {
    WalkNeutral(['"'], count);
    WalkConcat(['"'], Escape(s), count);
    WalkEscape(s, count);
  }

  /** The first string up to its closing quotation mark, and what follows. */
  lemma ItemsOpen(ids: seq<string>)
    requires ids != []
    ensures PrintItems(ids) ==
      (['"'] + Escape(ids[0])) + (['"'] + if |ids| == 1 then "" else [','] + PrintItems(ids[1..]))
  {
    if |ids| > 1 { QuotedThen(Escape(ids[0]), PrintItems(ids[1..])); }
  }

  lemma QuotedThen(e: string, items: string)
    ensures (['"'] + e + ['"']) + [','] + items == (['"'] + e) + (['"'] + ([','] + items))
  {
  }

  lemma PrefixOfJoin(a: string, b: string, c: string, r: nat)
    ensures (a + b) + c == a + (b + c)
    ensures r <= |a| ==> (a + b)[..r] == a[..r]
  {
  }

  /** When the count stops inside the items, at least one of the ids is missing from what is
      read up to there. */
  lemma {:induction false} ItemsCut(s: Scan, ids: seq<string>, b: string, count: int, r: nat)
    requires Between(s) && count > 0 && Walk(Joined(ids), count).None?
    requires BracketEnd(PrintItems(ids) + b, count) == Some(r)
    ensures r <= |PrintItems(ids)| && |Run(Keeping, s, PrintItems(ids)[..r]).result| < |s.result| + |NonEmpty(ids)|
    decreases |ids|
  {
    WalkConcat(ids[0], Joined(ids[1..]), count);
    if Walk(ids[0], count).None? {
      CutInside(s, ids, b, count, r);
    } else {
      CutLater(s, ids, b, count, r);
    }
  }

  lemma {:induction false} CutLater(s: Scan, ids: seq<string>, b: string, count: int, r: nat)
    requires Between(s) && count > 0 && ids != [] && Walk(ids[0], count).Some?
    requires Walk(Joined(ids[1..]), Walk(ids[0], count).value).None?
    requires BracketEnd(PrintItems(ids) + b, count) == Some(r)
    ensures r <= |PrintItems(ids)| && |Run(Keeping, s, PrintItems(ids)[..r]).result| < |s.result| + |NonEmpty(ids)|
    decreases |ids|, 0
  {
    var d, head, tail := Walk(ids[0], count).value, Quote(ids[0]) + [','], PrintItems(ids[1..]);
    assert ids[1..] != [];
    WalkNonZero(ids[0], count);
    WalkHead(ids[0], count);
    Assoc(head, tail, b);
    BracketEndSkips(head, tail + b, count);
    var u := s.(result := s.result + NonEmpty([Escape(ids[0])]));
    ItemsCut(u, ids[1..], b, d, r - |head|);
    assert PrintItems(ids)[..r] == head + tail[..r - |head|];
    ReadHead(s, ids[0]);
    RunConcat(Keeping, s, head, tail[..r - |head|]);
  }

  /** The count over a string and the comma after it. */
  lemma WalkHead(id: string, count: int)
    requires count > 0 && Walk(id, count).Some? && Walk(id, count).value > 0
    ensures Walk(Quote(id) + [','], count) == Walk(id, count)
  {
    WalkQuote(id, count);
    WalkConcat(Quote(id), [','], count);
    WalkNeutral([','], Walk(id, count).value);
  }

  /** What a string and the comma after it yield. */
  lemma ReadHead(s: Scan, id: string)
    requires Between(s)
    ensures Run(Keeping, s, Quote(id) + [',']) == s.(result := s.result + NonEmpty([Escape(id)]))
    ensures |NonEmpty([Escape(id)])| == if id == "" then 0 else 1
  {
    var u := s.(result := s.result + NonEmpty([Escape(id)]));
    RawQuote(s, id);
    RunOne(Keeping, u, ',');
    RunConcat(Keeping, s, Quote(id), [',']);
    EscapeGrows(id);
    assert [Escape(id)][1..] == [];
  }

  lemma {:induction false} SameNumber(ids: seq<string>)
    ensures |NonEmpty(EscapeAll(ids))| == |NonEmpty(ids)|
  {
    if ids != [] {
      SameNumber(ids[1..]);
      EscapeGrows(ids[0]);
      assert EscapeAll(ids)[1..] == EscapeAll(ids[1..]);
    }
  }

  /** Brackets are left over only when some id is not empty. */
  lemma {:induction false} NothingJoined(ids: seq<string>)
    ensures NonEmpty(ids) == [] ==> Joined(ids) == ""
  {
    if ids != [] { NothingJoined(ids[1..]); }
  }

  /** The list at a bracket is read back, as escaped forms, if and only if the count closes
      on it or after it; otherwise fewer ids are read. */
  lemma ListAtIff(json: string, start: nat, ids: seq<string>, rest: string)
    requires start < |json| && json[start..] == PrintList(ids) + rest
    ensures ListAt(json, start) == NonEmpty(EscapeAll(ids)) <==> Closes(ids, rest)
    ensures !Closes(ids, rest) ==> |ListAt(json, start)| < |NonEmpty(ids)|
  {
    SameNumber(ids);
    NothingJoined(ids);
    if Walk(Joined(ids), 1).None? {
      ListCut(json, start, ids, rest);
    } else {
      ListClosed(json, start, ids, rest);
    }
  }

  /** Where the count of a printed list and what follows ends. */
  lemma CountList(ids: seq<string>, rest: string)
    ensures var r := BracketEnd(PrintItems(ids) + ([']'] + rest), 1);
      match Walk(Joined(ids), 1)
      case None => r.Some? && r.value <= |PrintItems(ids)|
      case Some(d) =>
        r == if d == 1 then Some(|PrintItems(ids)| + 1)
             else match BracketEnd(rest, d - 1) case None => None case Some(k) => Some(|PrintItems(ids)| + 1 + k)
  {
    WalkItems(ids, 1);
    WalkNonZero(Joined(ids), 1);
    BracketEndSkips(PrintItems(ids), [']'] + rest, 1);
    assert ([']'] + rest)[1..] == rest;
  }

  lemma ListCut(json: string, start: nat, ids: seq<string>, rest: string)
    requires start < |json| && json[start..] == PrintList(ids) + rest && Walk(Joined(ids), 1).None?
    ensures |ListAt(json, start)| < |NonEmpty(ids)|
  {
    CountList(ids, rest);
    var r := BracketEnd(PrintItems(ids) + ([']'] + rest), 1).value;
    ListText(json, start, ids, rest);
    ItemsCut(START, ids, [']'] + rest, 1, r);
    ListAtCut(json, start, PrintItems(ids), [']'] + rest, r);
  }

  /** A count that ends inside the items. */
  lemma ListAtCut(json: string, start: nat, items: string, after: string, r: nat)
    requires start < |json| && json[start] == '[' && json[start + 1..] == items + after && r <= |items|
    requires BracketEnd(items + after, 1) == Some(r)
    ensures ListAt(json, start) == Run(Keeping, START, items[..r]).result
  {
    assert json[start + 1..][..r] == items[..r];
    assert json[start..start + 1 + r] == ['['] + items[..r];
    FindCharAt(['['] + items[..r], '[', 0, 0);
    assert (['['] + items[..r])[1..] == items[..r];
  }

  lemma ListClosed(json: string, start: nat, ids: seq<string>, rest: string)
    requires start < |json| && json[start..] == PrintList(ids) + rest && Walk(Joined(ids), 1).Some?
    ensures ListAt(json, start) == if Closes(ids, rest) then NonEmpty(EscapeAll(ids)) else []
  {
    CountList(ids, rest);
    ListText(json, start, ids, rest);
    if Closes(ids, rest) {
      var d := Walk(Joined(ids), 1).value;
      var k := if d == 1 then 0 else BracketEnd(rest, d - 1).value;
      ListClosedAt(json, start, PrintItems(ids), rest, k);
      RawListOfPrinted(ids, rest[..k], "");
    }
  }

  lemma ListClosedAt(json: string, start: nat, items: string, rest: string, k: nat)
    requires start < |json| && json[start] == '[' && json[start + 1..] == items + ([']'] + rest) && k <= |rest|
    requires BracketEnd(items + ([']'] + rest), 1) == Some(|items| + 1 + k)
    ensures ListAt(json, start) == RawList((['['] + items + [']']) + rest[..k], "")
  {
    hide RawList, ListAt, BracketEnd;
    WholeText(json, start, items, rest, k);
    ListAtEnd(json, start, |items| + 1 + k);
  }

  lemma ListAtEnd(json: string, start: nat, k: nat)
    requires start < |json| && BracketEnd(json[start + 1..], 1) == Some(k)
    ensures start + 1 + k <= |json| && ListAt(json, start) == RawList(json[start..start + 1 + k], "")
  {
  }

  /** The text of a count that ends on the closing bracket or after it. */
  lemma WholeText(json: string, start: nat, items: string, rest: string, k: nat)
    requires start < |json| && json[start] == '[' && json[start + 1..] == items + ([']'] + rest) && k <= |rest|
    ensures start + 1 + |items| + 1 + k <= |json|
    ensures json[start..start + 1 + (|items| + 1 + k)] == ['['] + items + [']'] + rest[..k]
  {
    SliceAfter(json, start, |items| + 1 + k);
    TakePast(items, rest, k);
  }

  lemma SliceAfter(json: string, start: nat, n: nat)
    requires start + 1 + n <= |json|
    ensures json[start..start + 1 + n] == [json[start]] + json[start + 1..][..n]
  {
  }

  lemma TakePast(items: string, rest: string, k: nat)
    requires k <= |rest|
    ensures ['['] + (items + ([']'] + rest))[..|items| + 1 + k] == ['['] + items + [']'] + rest[..k]
  {
  }

  /** A parameter whose first occurrence of a field is the field itself yields the escaped
      forms of the field's non-empty ids if and only if the count closes; otherwise it
      yields fewer. */
  lemma FieldIdsIff(json: string, name: string, field: nat, ids: seq<string>, rest: string)
    requires ':' !in name && FindText(json, Quoted(name), 0) == Some(field)
    requires json[field..] == (Quoted(name) + [':']) + (PrintList(ids) + rest)
    ensures FieldIds(json, name) == NonEmpty(EscapeAll(ids)) <==> Closes(ids, rest)
    ensures !Closes(ids, rest) ==> |FieldIds(json, name)| < |NonEmpty(ids)|
  {
    FieldFound(json, name, field);
    NoColon(name);
    IdsFromIff(json, Quoted(name), field, field + |Quoted(name)| + 1, ids, rest);
  }

  lemma FieldFound(json: string, name: string, field: nat)
    requires FindText(json, Quoted(name), 0) == Some(field)
    ensures field <= |json| && FieldIds(json, name) == IdsFrom(json, field)
  {
  }

  lemma IdsFromIff(json: string, key: string, field: nat, start: nat, ids: seq<string>, rest: string)
    requires ':' !in key && start == field + |key| + 1 && field <= |json|
    requires json[field..] == (key + [':']) + (PrintList(ids) + rest)
    ensures IdsFrom(json, field) == NonEmpty(EscapeAll(ids)) <==> Closes(ids, rest)
    ensures !Closes(ids, rest) ==> |IdsFrom(json, field)| < |NonEmpty(ids)|
  {
    Assoc(key, [':'], PrintList(ids) + rest);
    FieldIdsAt(json, key, field, PrintList(ids) + rest);
    ListAtIff(json, start, ids, rest);
  }

  lemma NoColon(name: string)
    requires ':' !in name
    ensures ':' !in Quoted(name)
  {
  }

  lemma FieldIdsAt(json: string, key: string, field: nat, list: string)
    requires field <= |json| && json[field..] == key + ([':'] + list)
    requires ':' !in key && list != "" && list[0] == '['
    ensures var start := field + |key| + 1;
      start < |json| && json[start..] == list && IdsFrom(json, field) == ListAt(json, start)
  {
    FieldText(json, field, key, list);
    IdsFromAt(json, field, field + |key|);
  }

  lemma IdsFromAt(json: string, field: nat, colon: nat)
    requires field <= |json| && colon + 1 < |json|
    requires FindChar(json, ':', field) == Some(colon) && FindChar(json, '[', colon) == Some(colon + 1)
    ensures IdsFrom(json, field) == ListAt(json, colon + 1)
  {
  }

  /** The whole lookup: the field's ids come back if and only if the count closes, or the
      field yields nothing at all and the rest of the lookup finds them elsewhere. */
  lemma InviteIdsLookup(json: string, names: seq<string>, field: nat, ids: seq<string>, rest: string)
    requires names != [] && ':' !in names[0] && FindText(json, Quoted(names[0]), 0) == Some(field)
    requires json[field..] == (Quoted(names[0]) + [':']) + (PrintList(ids) + rest) && NonEmpty(ids) != []
    ensures LookupIds(json, names) == NonEmpty(EscapeAll(ids)) <==>
      Closes(ids, rest)
      || (FieldIds(json, names[0]) == [] && LookupIds(json, names[1..]) == NonEmpty(EscapeAll(ids)))
  {
    FieldIdsIff(json, names[0], field, ids, rest);
    SameNumber(ids);
    LookupCons(json, names);
  }

  lemma LookupCons(json: string, names: seq<string>)
    requires names != []
    ensures LookupIds(json, names) ==
      if FieldIds(json, names[0]) != [] then FieldIds(json, names[0]) else LookupIds(json, names[1..])
  {
  }

  // ---------- the whole lookup on a printed object ----------

  function Strings(ids: seq<string>): seq<Json> {
    if ids == [] then [] else [Str(ids[0])] + Strings(ids[1..])
  }

  lemma {:induction false} PrintStrings(ids: seq<string>)
    ensures PrintValues(Strings(ids)) == PrintItems(ids)
  {
    if ids != [] { PrintStrings(ids[1..]); }
  }

  /** The search finds nothing exactly when no name or string of the object mimics the name. */
  lemma AbsentIff(members: seq<Member>, name: string)
    requires IsName(name)
    ensures FindText(Print(Obj(members)), Quoted(name), 0) == None <==> !MentionsMembers(members, name)
  {
    ValueStart(Obj(members), "", name);
    AbsentTextIff(Print(Obj(members)), Quoted(name));
  }

  /** No field with one of the names. */
  predicate NoneMentioned(members: seq<Member>, names: seq<string>) {
    forall n :: n in names ==> IsName(n) && !MentionsMembers(members, n)
  }

  lemma {:induction false} AbsentFields(members: seq<Member>, names: seq<string>)
    requires NoneMentioned(members, names)
    ensures FirstNonEmptyField(Print(Obj(members)), names) == []
  {
    if names != [] {
      assert names[0] in names && forall n :: n in names[1..] ==> n in names;
      AbsentIff(members, names[0]);
      AbsentFields(members, names[1..]);
    }
  }

  /** A parameter object with a given list of ids. */
  function Parameter(pre: seq<Member>, name: string, ids: seq<string>, post: seq<Member>): seq<Member> {
    pre + [Member(name, Arr(Strings(ids)))] + post
  }

  /** For every parameter object in which nothing before the field mimics its name, and which
      mentions no fallback name if the field yields nothing: the lookup yields the escaped
      forms of the non-empty ids if and only if the count closes, and the ids themselves if
      and only if, moreover, none of them needs an escape. */
  lemma InviteIdsIff(pre: seq<Member>, names: seq<string>, ids: seq<string>, post: seq<Member>)
    requires names != [] && IsName(names[0]) && ':' !in names[0] && !MentionsMembers(pre, names[0])
    requires FieldIds(Print(Obj(Parameter(pre, names[0], ids, post))), names[0]) == [] ==>
      NoneMentioned(Parameter(pre, names[0], ids, post), names[1..])
    ensures var json := Print(Obj(Parameter(pre, names[0], ids, post)));
      && (LookupIds(json, names) == NonEmpty(EscapeAll(ids)) <==> Closes(ids, Tail(post)))
      && (LookupIds(json, names) == NonEmpty(ids) <==> Closes(ids, Tail(post)) && AllItemsPlain(ids))
  {
    var members := Parameter(pre, names[0], ids, post);
    FieldOfParameter(pre, names[0], ids, post);
    if FieldIds(Print(Obj(members)), names[0]) == [] { AbsentFields(members, names[1..]); }
    LookupIsField(Print(Obj(members)), names);
    SameNumber(ids);
    EscapedListIsList(ids);
  }

  lemma FieldOfParameter(pre: seq<Member>, name: string, ids: seq<string>, post: seq<Member>)
    requires IsName(name) && ':' !in name && !MentionsMembers(pre, name)
    ensures var json := Print(Obj(Parameter(pre, name, ids, post)));
      && (FieldIds(json, name) == NonEmpty(EscapeAll(ids)) <==> Closes(ids, Tail(post)))
      && (!Closes(ids, Tail(post)) ==> |FieldIds(json, name)| < |NonEmpty(ids)|)
  {
    var m := Member(name, Arr(Strings(ids)));
    var json := Print(Obj(pre + [m] + post));
    KeyFound(pre, m, post, "");
    assert json + "" == json && Tail(post) + "" == Tail(post);
    PrintStrings(ids);
    FieldIdsIff(json, name, |Head(pre)|, ids, Tail(post));
  }

  lemma LookupIsField(json: string, names: seq<string>)
    requires names != [] && json != "" && json[0] != '['
    requires FieldIds(json, names[0]) == [] ==> FirstNonEmptyField(json, names[1..]) == []
    ensures LookupIds(json, names) == FieldIds(json, names[0])
  {
  }

  /** The names that are looked up are names in this sense. */
  lemma ActualNames()
    ensures IsIdentifier(FIELD) && forall n :: n in FALLBACKS ==> IsIdentifier(n)
  {
  }

  /** The field's own name does not mimic a fallback name. */
  lemma FieldIsNoFallback()
    ensures forall n :: n in FALLBACKS ==> !Mimics(FIELD, n)
  {
    var f := FIELD;
    assert f[|f| - 17] == '_' && f[|f| - 1] == 'y';
  }

  lemma {:induction false} MentionsConcat(a: seq<Member>, b: seq<Member>, n: string)
    ensures MentionsMembers(a + b, n) <==> MentionsMembers(a, n) || MentionsMembers(b, n)
  {
    if a == [] {
      assert a + b == b;
    } else {
      assert (a + b)[1..] == a[1..] + b;
      MentionsConcat(a[1..], b, n);
    }
  }

  lemma {:induction false} MentionsStrings(ids: seq<string>, n: string)
    ensures MentionsValues(Strings(ids), n) <==> exists i :: 0 <= i < |ids| && Mimics(ids[i], n)
  {
    if ids != [] {
      MentionsStrings(ids[1..], n);
      assert Strings(ids)[1..] == Strings(ids[1..]);
      assert forall i :: 0 < i < |ids| ==> ids[i] == ids[1..][i - 1];
    }
  }

  /** Nothing but the field's own name could be taken for a fallback name. */
  ghost predicate OthersSilent(pre: seq<Member>, ids: seq<string>, post: seq<Member>, n: string) {
    !MentionsMembers(pre, n) && !MentionsMembers(post, n) && forall i :: 0 <= i < |ids| ==> !Mimics(ids[i], n)
  }

  lemma ParameterSilent(pre: seq<Member>, name: string, ids: seq<string>, post: seq<Member>, n: string)
    requires OthersSilent(pre, ids, post, n) && !Mimics(name, n)
    ensures !MentionsMembers(Parameter(pre, name, ids, post), n)
  {
    var m := Member(name, Arr(Strings(ids)));
    MentionsConcat(pre + [m], post, n);
    MentionsConcat(pre, [m], n);
    MentionsStrings(ids, n);
    assert [m][1..] == [];
    assert MentionsMembers([m], n) <==> MentionsMember(m, n);
  }

  /** The lookup that is in use, with its own names. */
  lemma InviteIdsOfParameter(pre: seq<Member>, ids: seq<string>, post: seq<Member>)
    requires !MentionsMembers(pre, FIELD)
    requires FieldIds(Print(Obj(Parameter(pre, FIELD, ids, post))), FIELD) == [] ==>
      forall n :: n in FALLBACKS ==> OthersSilent(pre, ids, post, n)
    ensures var json := Print(Obj(Parameter(pre, FIELD, ids, post)));
      && (InviteIds(json) == NonEmpty(EscapeAll(ids)) <==> Closes(ids, Tail(post)))
      && (InviteIds(json) == NonEmpty(ids) <==> Closes(ids, Tail(post)) && AllItemsPlain(ids))
  {
    ActualNames();
    IdentifierIsName(FIELD);
    FieldIsNoFallback();
    if FieldIds(Print(Obj(Parameter(pre, FIELD, ids, post))), FIELD) == [] {
      forall n | n in FALLBACKS ensures IsName(n) && !MentionsMembers(Parameter(pre, FIELD, ids, post), n) {
        IdentifierIsName(n);
        ParameterSilent(pre, FIELD, ids, post, n);
      }
    }
    InviteIdsNamed(pre, FIELD, FALLBACKS, ids, post);
  }

  lemma InviteIdsNamed(pre: seq<Member>, name: string, fallbacks: seq<string>, ids: seq<string>, post: seq<Member>)
    requires IsName(name) && ':' !in name && !MentionsMembers(pre, name)
    requires FieldIds(Print(Obj(Parameter(pre, name, ids, post))), name) == [] ==>
      NoneMentioned(Parameter(pre, name, ids, post), fallbacks)
    ensures var json := Print(Obj(Parameter(pre, name, ids, post)));
      && (LookupIds(json, [name] + fallbacks) == NonEmpty(EscapeAll(ids)) <==> Closes(ids, Tail(post)))
      && (LookupIds(json, [name] + fallbacks) == NonEmpty(ids) <==> Closes(ids, Tail(post)) && AllItemsPlain(ids))
  {
    assert ([name] + fallbacks)[1..] == fallbacks;
    InviteIdsIff(pre, [name] + fallbacks, ids, post);
  }

  /** An id with a closing bracket: the list is never read back, whatever else there is. */
  lemma ClosingBracketLosesIds(a: string, b: string, pre: seq<Member>, post: seq<Member>)
    requires '[' !in a && ']' !in a && !MentionsMembers(pre, FIELD)
    ensures FieldIds(Print(Obj(Parameter(pre, FIELD, [a + [']'] + b], post))), FIELD) == []
  {
    var ids := [a + [']'] + b];
    ActualNames();
    IdentifierIsName(FIELD);
    assert Joined(ids) == ids[0] + "" == a + ([']'] + b) by { assert ids[1..] == []; }
    WalkNeutral(a, 1);
    WalkConcat(a, [']'] + b, 1);
    assert NonEmpty(ids) == ids by { assert ids[1..] == []; }
    FieldOfParameter(pre, FIELD, ids, post);
  }

  // ---------- the other forms of the parameter ----------

  lemma {:induction false} AbsentFieldsOfText(json: string, names: seq<string>)
    requires forall n :: n in names ==> FindText(json, Quoted(n), 0) == None
    ensures FirstNonEmptyField(json, names) == []
  {
    if names != [] {
      assert names[0] in names && forall n :: n in names[1..] ==> n in names;
      AbsentFieldsOfText(json, names[1..]);
    }
  }

  lemma AbsentInList(ids: seq<string>, n: string)
    requires IsName(n) && forall i :: 0 <= i < |ids| ==> !Mimics(ids[i], n)
    ensures FindText(PrintList(ids), Quoted(n), 0) == None
  {
    PrintStrings(ids);
    MentionsStrings(ids, n);
    ValueStart(Arr(Strings(ids)), "", n);
    AbsentTextIff(PrintList(ids), Quoted(n));
  }

  /** A parameter that is itself a list of ids, none of which imitates a name that is looked
      up: the escaped forms of the non-empty ids, whatever brackets they have. */
  lemma InviteIdsOfList(ids: seq<string>, names: seq<string>)
    requires forall n :: n in names ==> IsName(n) && forall i :: 0 <= i < |ids| ==> !Mimics(ids[i], n)
    ensures LookupIds(PrintList(ids), names) == NonEmpty(EscapeAll(ids))
  {
    forall n | n in names ensures FindText(PrintList(ids), Quoted(n), 0) == None {
      AbsentInList(ids, n);
    }
    AbsentFieldsOfText(PrintList(ids), names);
    RawListOfPrinted(ids, "", "");
    assert PrintList(ids) + "" == PrintList(ids);
  }

  lemma {:induction false} SkipEmptyFields(json: string, earlier: seq<string>, later: seq<string>)
    requires FirstNonEmptyField(json, earlier) == []
    ensures FirstNonEmptyField(json, earlier + later) == FirstNonEmptyField(json, later)
  {
    if earlier == [] {
      assert earlier + later == later;
    } else {
      assert (earlier + later)[1..] == earlier[1..] + later;
      SkipEmptyFields(json, earlier[1..], later);
    }
  }

  /** A parameter that has the ids under a later name, and mentions none of the earlier ones. */
  lemma InviteIdsOfFallback(pre: seq<Member>, earlier: seq<string>, name: string, later: seq<string>,
                            ids: seq<string>, post: seq<Member>)
    requires IsName(name) && ':' !in name && !MentionsMembers(pre, name)
    requires NoneMentioned(Parameter(pre, name, ids, post), earlier)
    requires NonEmpty(ids) != [] && Closes(ids, Tail(post))
    ensures LookupIds(Print(Obj(Parameter(pre, name, ids, post))), earlier + ([name] + later))
      == NonEmpty(EscapeAll(ids))
  {
    var json := Print(Obj(Parameter(pre, name, ids, post)));
    FieldOfParameter(pre, name, ids, post);
    SameNumber(ids);
    AbsentFields(Parameter(pre, name, ids, post), earlier);
    SkipEmptyFields(json, earlier, [name] + later);
    assert ([name] + later)[0] == name;
  }

  lemma FieldText(json: string, field: nat, key: string, list: string)
    requires field <= |json| && json[field..] == key + ([':'] + list)
    requires ':' !in key && list != "" && list[0] == '['
    ensures field + |key| + 1 < |json| && json[field + |key| + 1..] == list
    ensures FindChar(json, ':', field) == Some(field + |key|)
    ensures FindChar(json, '[', field + |key|) == Some(field + |key| + 1)
  {
    var colon := field + |key|;
    assert json[colon] == json[field..][|key|];
    assert json[field..colon] == json[field..][..|key|];
    FindCharAt(json, ':', field, colon);
    assert json[colon + 1..] == json[field..][|key| + 1..];
    assert json[colon + 1] == list[0];
    FindCharAt(json, '[', colon, colon + 1);
  }

  lemma ListText(json: string, start: nat, ids: seq<string>, rest: string)
    requires start < |json| && json[start..] == PrintList(ids) + rest
    ensures json[start] == '[' && json[start + 1..] == PrintItems(ids) + ([']'] + rest)
    ensures start + |PrintItems(ids)| + 2 <= |json|
    ensures json[start..start + 1 + (|PrintItems(ids)| + 1)] == PrintList(ids)
  {
    assert json[start] == json[start..][0] && json[start + 1..] == json[start..][1..];
    assert json[start..start + 1 + (|PrintItems(ids)| + 1)] == json[start..][..|PrintItems(ids)| + 2];
  }
}
