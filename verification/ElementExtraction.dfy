/** The first element of a message: the object cut out of the message text after searches for
    the quoted name, the next bracket and the next brace. */
module ElementExtraction {
  import opened Text
  import opened JsonText
  import opened KeySearch
  import opened BraceScan

  /** Where the object is taken to start. */
  function ElementStart(json: string, key: string): (r: Option<nat>)
    ensures r.Some? ==> r.value < |json|
  {
    match FindText(json, key, 0)
    case None => None
    case Some(field) => StartFrom(json, field)
  }

  function StartFrom(json: string, field: nat): (r: Option<nat>)
    requires field <= |json|
    ensures r.Some? ==> r.value < |json|
  {
    match FindChar(json, '[', field)
    case None => None
    case Some(bracket) => FindChar(json, '{', bracket)
  }

  function FirstElement(json: string, key: string): Option<string> {
    match ElementStart(json, key)
    case None => None
    case Some(start) => ObjectAt(json, start)
  }

  function ObjectAt(json: string, start: nat): Option<string>
    requires start <= |json|
  {
    match BraceEnd(json[start..], START)
    case None => None
    case Some(k) => if k == 0 then None else Some(json[start..start + k + 1])
  }

  method ExtractFirstElement(json: string, key: string) returns (element: Option<string>)
    ensures element == FirstElement(json, key)
  {
    var field := FindText(json, key, 0);
    if field.None? { return None; }
    var bracket := FindChar(json, '[', field.value);
    if bracket.None? { return None; }
    var start := FindChar(json, '{', bracket.value);
    if start.None? { return None; }
    var end := FindObjectEnd(json, start.value);
    if end > start.value {
      element := Some(json[start.value..end + 1]);
    } else {
      element := None;
    }
  }

  lemma ObjectAtStart(json: string, start: nat, members: seq<Member>, rest: string)
    requires start <= |json| && json[start..] == Print(Obj(members)) + rest
    ensures ObjectAt(json, start) == Some(Print(Obj(members)))
  {
    var n := |Print(Obj(members))|;
    BraceScanFindsObject(members, rest);
    SliceAt(json, start, Print(Obj(members)), rest);
  }

  lemma SliceAt(json: string, start: nat, text: string, rest: string)
    requires start <= |json| && json[start..] == text + rest
    ensures start + |text| <= |json| && json[start..start + |text|] == text
  {
    assert json[start..start + |text|] == json[start..][..|text|];
  }

  // ---------- where it starts ----------

  /** No brace lies between the first bracket that follows the name's first occurrence and a
      given position. */
  predicate NoBraceBefore(json: string, key: string, start: nat)
    requires start <= |json|
  {
    match FindText(json, key, 0)
    case None => false
    case Some(field) =>
      match FindChar(json, '[', field)
      case None => false
      case Some(bracket) => bracket <= start && '{' !in json[bracket..start]
  }

  lemma {:induction false} BracketFoundBefore(json: string, field: nat, bracket: nat)
    requires field <= bracket < |json| && json[bracket] == '['
    ensures var r := FindChar(json, '[', field); r.Some? && r.value <= bracket
    decreases bracket - field
  {
    if json[field] != '[' { BracketFoundBefore(json, field + 1, bracket); }
  }

  lemma BraceFoundIff(json: string, bracket: nat, start: nat)
    requires bracket <= start < |json| && json[start] == '{'
    ensures FindChar(json, '{', bracket) == Some(start) <==> '{' !in json[bracket..start]
  {
    FindCharFirst(json, '{', bracket);
    if '{' !in json[bracket..start] { FindCharAt(json, '{', bracket, start); }
  }

  /** A brace right after a bracket, somewhere behind an occurrence of the name, is where the
      object is taken to start exactly when no brace comes before it. */
  lemma StartIff(json: string, key: string, at: nat, start: nat)
    requires OccursAt(json, key, at) && at < start < |json| && json[start - 1] == '[' && json[start] == '{'
    ensures ElementStart(json, key) == Some(start) <==> NoBraceBefore(json, key, start)
  {
    FindTextFirst(json, key, 0);
    var field := FindText(json, key, 0).value;
    BracketFoundBefore(json, field, start - 1);
    BraceFoundIff(json, FindChar(json, '[', field).value, start);
  }

  // ---------- on printed messages ----------

  const ELEM_ARRAY := "message_elem_array"

  lemma ElemArrayIsName()
    ensures IsName(ELEM_ARRAY) && '[' !in ELEM_ARRAY
  {
    IdentifierIsName(ELEM_ARRAY);
  }

  /** A message with a given array of elements. */
  function Message(pre: seq<Member>, key: string, first: seq<Member>, items: seq<Json>, post: seq<Member>): Json {
    Obj(pre + [Member(key, Arr([Obj(first)] + items))] + post)
  }

  /** Where the array's first object is printed. */
  function OwnStart(pre: seq<Member>, key: string): nat {
    |Head(pre)| + |Quoted(key)| + 2
  }

  /** What follows the first object of an array. */
  function AfterFirst(items: seq<Json>): string {
    (if items == [] then "" else [','] + PrintValues(items)) + [']']
  }

  lemma ArrayPrinted(first: seq<Member>, items: seq<Json>, after: string)
    ensures Print(Arr([Obj(first)] + items)) + after == ['['] + (Print(Obj(first)) + (AfterFirst(items) + after))
  {
    assert ([Obj(first)] + items)[1..] == items;
    assert Print(Arr([Obj(first)] + items)) == ['['] + (Print(Obj(first)) + AfterFirst(items));
    FirstOfThree(Print(Obj(first)), AfterFirst(items), after);
  }

  /** The text of a printed message from the array's own name on, and from its first object. */
  lemma OwnText(pre: seq<Member>, key: string, first: seq<Member>, items: seq<Json>, post: seq<Member>, rest: string)
    requires AllPlain(key)
    ensures var json, start := Print(Message(pre, key, first, items, post)) + rest, OwnStart(pre, key);
      && OccursAt(json, Quoted(key), |Head(pre)|)
      && start < |json| && json[start - 1] == '[' && json[start] == '{'
      && json[start..] == Print(Obj(first)) + (AfterFirst(items) + (Tail(post) + rest))
  {
    var after := AfterFirst(items) + (Tail(post) + rest);
    ArrayText(pre, key, first, items, post, rest);
    ObjectStarts(first, after);
    TextAt(Print(Message(pre, key, first, items, post)) + rest, |Head(pre)|, Quoted(key), Print(Obj(first)) + after);
  }

  lemma ArrayText(pre: seq<Member>, key: string, first: seq<Member>, items: seq<Json>, post: seq<Member>, rest: string)
    requires AllPlain(key)
    ensures var json := Print(Message(pre, key, first, items, post)) + rest;
      && |Head(pre)| <= |json|
      && json[|Head(pre)|..] ==
        (Quoted(key) + [':']) + (['['] + (Print(Obj(first)) + (AfterFirst(items) + (Tail(post) + rest))))
  {
    KeyText(pre, Member(key, Arr([Obj(first)] + items)), post, rest);
    ArrayPrinted(first, items, Tail(post) + rest);
  }

  lemma TextAt(json: string, at: nat, key: string, body: string)
    requires at <= |json| && json[at..] == (key + [':']) + (['['] + body) && body != ""
    ensures OccursAt(json, key, at)
    ensures var start := at + |key| + 2; start < |json| && json[start - 1] == '[' && json[start..] == body
    ensures json[at + |key| + 2] == body[0]
  {
    var t := json[at..];
    assert json[at..at + |key|] == t[..|key|] == key;
    assert t[|key| + 1] == '[' && t[|key| + 2..] == body;
    assert json[at + |key| + 2..] == t[|key| + 2..];
  }

  lemma ObjectStarts(members: seq<Member>, rest: string)
    ensures var body := Print(Obj(members)) + rest; body != "" && body[0] == '{'
  {
  }

  /** For every message tree and whatever follows it: the object cut out starts at the array's
      own first object if and only if no other brace lies between the first bracket behind the
      name's first occurrence and that object; and then that object is what is cut out. */
  lemma ElementIff(pre: seq<Member>, key: string, first: seq<Member>, items: seq<Json>, post: seq<Member>, rest: string)
    requires AllPlain(key)
    ensures var json, start := Print(Message(pre, key, first, items, post)) + rest, OwnStart(pre, key);
      && start <= |json|
      && (ElementStart(json, Quoted(key)) == Some(start) <==> NoBraceBefore(json, Quoted(key), start))
      && (NoBraceBefore(json, Quoted(key), start) ==> FirstElement(json, Quoted(key)) == Some(Print(Obj(first))))
  {
    var json, start := Print(Message(pre, key, first, items, post)) + rest, OwnStart(pre, key);
    OwnText(pre, key, first, items, post, rest);
    StartIff(json, Quoted(key), |Head(pre)|, start);
    if NoBraceBefore(json, Quoted(key), start) {
      ElementCut(json, Quoted(key), start, first, AfterFirst(items) + (Tail(post) + rest));
    }
  }

  /** The same for the messages that are sent. */
  lemma MessageElementIff(pre: seq<Member>, first: seq<Member>, items: seq<Json>, post: seq<Member>, rest: string)
    ensures var json, start := Print(Message(pre, ELEM_ARRAY, first, items, post)) + rest, OwnStart(pre, ELEM_ARRAY);
      && start <= |json|
      && (ElementStart(json, Quoted(ELEM_ARRAY)) == Some(start) <==> NoBraceBefore(json, Quoted(ELEM_ARRAY), start))
      && (!MentionsMembers(pre, ELEM_ARRAY) ==> NoBraceBefore(json, Quoted(ELEM_ARRAY), start))
      && (NoBraceBefore(json, Quoted(ELEM_ARRAY), start) ==>
            FirstElement(json, Quoted(ELEM_ARRAY)) == Some(Print(Obj(first))))
  {
    ElemArrayIsName();
    ElementIff(pre, ELEM_ARRAY, first, items, post, rest);
    if !MentionsMembers(pre, ELEM_ARRAY) { UnmentionedIsUndisturbed(pre, ELEM_ARRAY, first, items, post, rest); }
  }

  /** When nothing before the member mimics its name, no brace is in the way. */
  lemma UnmentionedIsUndisturbed(pre: seq<Member>, key: string, first: seq<Member>, items: seq<Json>,
                                 post: seq<Member>, rest: string)
    requires IsName(key) && '[' !in key && !MentionsMembers(pre, key)
    ensures var json, start := Print(Message(pre, key, first, items, post)) + rest, OwnStart(pre, key);
      start <= |json| && NoBraceBefore(json, Quoted(key), start)
  {
    var m := Member(key, Arr([Obj(first)] + items));
    var json, start := Print(Message(pre, key, first, items, post)) + rest, OwnStart(pre, key);
    KeySearchIff(pre, m, post, rest);
    OwnText(pre, key, first, items, post, rest);
    KeyText(pre, m, post, rest);
    NextBracket(json, |Head(pre)|, Quoted(key) + [':'], Print(m.value) + (Tail(post) + rest));
    assert json[start - 1..start] == ['['];
  }

  /** So the text cut out is then the first object of the member's array. */
  lemma FirstElementOfTree(pre: seq<Member>, key: string, first: seq<Member>, items: seq<Json>,
                           post: seq<Member>, rest: string)
    requires IsName(key) && '[' !in key && !MentionsMembers(pre, key)
    ensures FirstElement(Print(Message(pre, key, first, items, post)) + rest, Quoted(key)) == Some(Print(Obj(first)))
  {
    UnmentionedIsUndisturbed(pre, key, first, items, post, rest);
    ElementIff(pre, key, first, items, post, rest);
  }

  /** The first bracket behind a text that has none. */
  lemma NextBracket(json: string, field: nat, head: string, body: string)
    requires field <= |json| && json[field..] == head + body && '[' !in head
    requires field + |head| < |json| && json[field + |head|] == '['
    ensures FindChar(json, '[', field) == Some(field + |head|)
  {
    assert json[field..field + |head|] == json[field..][..|head|] == head;
    FindCharAt(json, '[', field, field + |head|);
  }

  lemma FirstOfThree(a: string, b: string, c: string)
    ensures (['['] + (a + b)) + c == ['['] + (a + (b + c))
  {
  }

  // ---------- an earlier string that is the name ----------

  /** The next member's array is taken. */
  lemma NextArrayIsTaken(name: string, key: string, name2: string, other: seq<Member>, items: seq<Json>,
                         post: seq<Member>, rest: string)
    requires IsName(key) && '[' !in key && !Mimics(name, key) && AllPlain(name2) && '[' !in name2
    ensures FirstElement(
        Print(Message([Member(name, Str(key))], name2, other, items, post)) + rest, Quoted(key))
      == Some(Print(Obj(other)))
  {
    var pre, n := [Member(name, Str(key))], Member(name2, Arr([Obj(other)] + items));
    var json, own := Print(Message(pre, name2, other, items, post)) + rest, OwnStart(pre, name2);
    EarlierStringFound(name, key, n, post, rest);
    OwnText(pre, name2, other, items, post, rest);
    var field, head := |['{'] + (Quote(name) + [':'])|, Quoted(key) + ([','] + Quoted(name2) + [':']);
    NameFollows(name, key, name2);
    NoBracket(key, name2);
    StartBehind(json, Quoted(key), field, head, Print(n.value) + (Tail(post) + rest));
    ElementCut(json, Quoted(key), own, other, AfterFirst(items) + (Tail(post) + rest));
  }

  /** Behind the place where the search stops and a text without brackets, an array begins
      with an object. */
  lemma StartBehind(json: string, key: string, field: nat, head: string, body: string)
    requires FindText(json, key, 0) == Some(field) && field <= |json| && json[field..] == head + body
    requires var bracket := field + |head|;
      '[' !in head && bracket + 1 < |json| && json[bracket] == '[' && json[bracket + 1] == '{'
    ensures ElementStart(json, key) == Some(field + |head| + 1)
  {
    NextBracket(json, field, head, body);
    StartAt(json, key, field, field + |head|);
  }

  /** The object that is cut out, once it is known where it starts. */
  lemma ElementCut(json: string, key: string, start: nat, members: seq<Member>, after: string)
    requires ElementStart(json, key) == Some(start) && start <= |json|
    requires json[start..] == Print(Obj(members)) + after
    ensures FirstElement(json, key) == Some(Print(Obj(members)))
  {
    ObjectAtStart(json, start, members, after);
  }

  /** The search stops in the earlier string. */
  lemma EarlierStringFound(name: string, key: string, n: Member, post: seq<Member>, rest: string)
    requires IsName(key) && !Mimics(name, key) && AllPlain(n.name)
    ensures var json := Print(Obj([Member(name, Str(key))] + [n] + post)) + rest;
      var field := |['{'] + (Quote(name) + [':'])|;
      && FindText(json, Quoted(key), 0) == Some(field) && field <= |json|
      && json[field..] == (Quoted(key) + ([','] + Quoted(n.name) + [':'])) + (Print(n.value) + (Tail(post) + rest))
  {
    var mid, body := [','] + Quoted(n.name) + [':'], Print(n.value) + (Tail(post) + rest);
    MisleadingText(name, key, n, post, rest);
    PrefixNoStart(name, key, Quoted(key) + (mid + body));
    StopsAt(['{'] + (Quote(name) + [':']), key, mid + body);
    Assoc(Quoted(key), mid, body);
  }

  lemma StartAt(json: string, key: string, field: nat, bracket: nat)
    requires FindText(json, key, 0) == Some(field) && field <= |json| && FindChar(json, '[', field) == Some(bracket)
    requires bracket + 1 < |json| && json[bracket] == '[' && json[bracket + 1] == '{'
    ensures ElementStart(json, key) == Some(bracket + 1)
  {
    assert json[bracket..bracket + 1] == ['['];
    BraceFoundIff(json, bracket, bracket + 1);
  }

  /** The text between the earlier string and the next member's array. */
  lemma NameFollows(name: string, key: string, name2: string)
    requires AllPlain(key)
    ensures OwnStart([Member(name, Str(key))], name2) - 1 ==
      |['{'] + (Quote(name) + [':'])| + |Quoted(key) + ([','] + Quoted(name2) + [':'])|
  {
    PrintedName(key);
    HeadOfString(name, key);
    NameLengths(Quote(name), Quoted(key), Quoted(name2));
  }

  lemma HeadOfString(name: string, key: string)
    ensures Head([Member(name, Str(key))]) == ['{'] + (((Quote(name) + [':']) + Quote(key)) + [','])
  {
    var m := Member(name, Str(key));
    assert Print(Str(key)) == Quote(key) && PrintMember(m) == (Quote(name) + [':']) + Quote(key);
    assert PrintMembers([m]) == PrintMember(m);
  }

  lemma NameLengths(a: string, b: string, c: string)
    ensures |['{'] + (((a + [':']) + b) + [','])| + |c| + 1 == |['{'] + (a + [':'])| + |b + ([','] + c + [':'])|
  {
  }

  /** An earlier string that is the name does no harm when the array's own member is next. */
  lemma EarlierStringHarmless(name: string, key: string, first: seq<Member>, items: seq<Json>,
                              post: seq<Member>, rest: string)
    requires IsName(key) && '[' !in key && !Mimics(name, key)
    ensures MentionsMembers([Member(name, Str(key))], key)
    ensures FirstElement(Print(Message([Member(name, Str(key))], key, first, items, post)) + rest, Quoted(key))
      == Some(Print(Obj(first)))
  {
    assert Mentions(Str(key), key) && MentionsMember(Member(name, Str(key)), key);
    NextArrayIsTaken(name, key, key, first, items, post, rest);
  }

  /** With another array in between it does: that array's first object is cut out, and not the
      one of the array that has the name. */
  lemma EarlierStringMisleads(name: string, key: string, name2: string, other: seq<Member>, items2: seq<Json>,
                              first: seq<Member>, items: seq<Json>, post: seq<Member>, rest: string)
    requires IsName(key) && '[' !in key && !Mimics(name, key)
    requires AllPlain(name2) && '[' !in name2 && name2 != key
    requires Print(Obj(other)) != Print(Obj(first))
    ensures var pre := [Member(name, Str(key))] + [Member(name2, Arr([Obj(other)] + items2))];
      var element := FirstElement(Print(Message(pre, key, first, items, post)) + rest, Quoted(key));
      element == Some(Print(Obj(other))) && element != Some(Print(Obj(first)))
  {
    var a, b, own := [Member(name, Str(key))], [Member(name2, Arr([Obj(other)] + items2))],
      [Member(key, Arr([Obj(first)] + items))];
    assert (a + b) + own + post == a + b + (own + post);
    NextArrayIsTaken(name, key, name2, other, items2, own + post, rest);
  }

  /** Such a message, with an empty object in between: its element is lost. */
  lemma ElementLost(first: seq<Member>, post: seq<Member>)
    requires first != []
    ensures var pre := [Member("x", Str(ELEM_ARRAY))] + [Member("y", Arr([Obj([])] + []))];
      FirstElement(Print(Message(pre, ELEM_ARRAY, first, [], post)) + "", Quoted(ELEM_ARRAY)) != Some(Print(Obj(first)))
  {
    ElemArrayIsName();
    assert |Print(Obj([]))| == 2;
    LongerThanEmpty(first);
    ShortNoMimic("x", ELEM_ARRAY);
    EarlierStringMisleads("x", ELEM_ARRAY, "y", [], [], first, [], post, "");
  }

  lemma LongerThanEmpty(first: seq<Member>)
    requires first != []
    ensures |Print(Obj(first))| > 2
  {
    assert |PrintMember(first[0])| > 0;
    assert |PrintMembers(first)| >= |PrintMember(first[0])|;
  }

  lemma ShortNoMimic(name: string, key: string)
    requires |name| < |key|
    ensures !Mimics(name, key)
  {
  }

  lemma NoBracket(key: string, name: string)
    requires '[' !in key && '[' !in name
    ensures '[' !in Quoted(key) + ([','] + Quoted(name) + [':'])
  {
  }

  lemma PrefixNoStart(name: string, key: string, body: string)
    requires IsName(key) && !Mimics(name, key)
    ensures NoStart(['{'] + (Quote(name) + [':']), body, Quoted(key))
  {
    QuoteStart(name, [':'] + body, key);
    CharThen('{', Quote(name) + [':'], body, key);
    ThenChar(Quote(name), ':', body, key);
  }

  lemma MisleadingText(name: string, key: string, n: Member, post: seq<Member>, rest: string)
    requires AllPlain(key) && AllPlain(n.name)
    ensures Print(Obj([Member(name, Str(key))] + [n] + post)) + rest
      == (['{'] + (Quote(name) + [':']))
         + (Quoted(key) + (([','] + Quoted(n.name) + [':']) + (Print(n.value) + (Tail(post) + rest))))
  {
    var m := Member(name, Str(key));
    PrintAround([m], n, post);
    PrintedName(key);
    PrintedName(n.name);
    assert PrintMembers([m]) == PrintMember(m);
    assert Head([m]) == ['{'] + (((Quote(name) + [':']) + Quoted(key)) + [',']);
    Flat(Quote(name), Quoted(key), Quoted(n.name), Print(n.value), Tail(post), rest);
  }

  lemma Flat(a: string, b: string, c: string, d: string, e: string, f: string)
    ensures ((['{'] + (((a + [':']) + b) + [','])) + (((c + [':']) + d) + e)) + f
      == (['{'] + (a + [':'])) + (b + (([','] + c + [':']) + (d + (e + f))))
  {
  }

  // ---------- messages without an element ----------

  /** Without the name, or a string that imitates it, nothing is cut out. */
  lemma NoNameNoElement(members: seq<Member>, key: string)
    requires IsName(key) && !MentionsMembers(members, key)
    ensures FirstElement(Print(Obj(members)), Quoted(key)) == None
  {
    ValueStart(Obj(members), "", key);
    AbsentTextIff(Print(Obj(members)), Quoted(key));
  }

  /** An object that is cut short is not taken, from wherever it starts. */
  lemma CutShortIsNotTaken(json: string, start: nat, members: seq<Member>, n: nat)
    requires start <= |json| && n < |Print(Obj(members))| && json[start..] == Print(Obj(members))[..n]
    ensures ObjectAt(json, start) == None
  {
    CutShortHasNoEnd(members, n);
  }
}
