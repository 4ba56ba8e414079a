/** JSON text as the library writes it: the escape table, string lists and value trees
    (RFC 8259, sections 3 to 7, without optional white space). */
module JsonText {
  import opened Text

  // ---------- strings ----------

  function HexDigit(d: nat): char
    requires d < 16
  {
    if d < 10 then '0' + d as char else 'a' + (d - 10) as char
  }

  predicate IsControl(c: char) {
    c < ' '
  }

  function EscapeChar(c: char): string {
    if c == '"' then "\\\""
    else if c == '\\' then "\\\\"
    else if c == '\U{8}' then "\\b"
    else if c == '\U{C}' then "\\f"
    else if c == '\n' then "\\n"
    else if c == '\r' then "\\r"
    else if c == '\t' then "\\t"
    else if IsControl(c) then "\\u00" + [HexDigit(c as int / 16), HexDigit(c as int % 16)]
    else [c]
  }

  function Escape(s: string): string {
    if s == [] then [] else EscapeChar(s[0]) + Escape(s[1..])
  }

  function Quote(s: string): string {
    ['"'] + Escape(s) + ['"']
  }

  /** The escaping loop: text appended character by character. */
  method EscapeJsonString(s: string) returns (o: string)
    ensures o == Escape(s)
  {
    o := "";
    var i := 0;
    while i < |s|
      invariant 0 <= i <= |s|
      invariant o + Escape(s[i..]) == Escape(s)
    {
      EscapeFrom(o, s, i);
      o := o + EscapeChar(s[i]);
      i := i + 1;
    }
    assert s[i..] == [] && o + [] == o;
  }

  lemma EscapeFrom(o: string, s: string, i: nat)
    requires i < |s|
    ensures o + Escape(s[i..]) == (o + EscapeChar(s[i])) + Escape(s[i + 1..])
  {
    assert s[i..][0] == s[i] && s[i..][1..] == s[i + 1..];
    Assoc(o, EscapeChar(s[i]), Escape(s[i + 1..]));
  }

  // ---------- reading strings back ----------

  function HexValue(c: char): (v: Option<nat>)
    ensures v.Some? ==> v.value < 16
  {
    if IsDigit(c) then Some(DigitValue(c))
    else if 'a' <= c <= 'f' then Some(10 + (c - 'a') as nat)
    else if 'A' <= c <= 'F' then Some(10 + (c - 'A') as nat)
    else None
  }

  function Hex4(t: string): Option<nat>
    requires |t| >= 4
  {
    var a, b, c, d := HexValue(t[0]), HexValue(t[1]), HexValue(t[2]), HexValue(t[3]);
    if a.None? || b.None? || c.None? || d.None? then None
    else Some(((a.value * 16 + b.value) * 16 + c.value) * 16 + d.value)
  }

  /** The character a two-character escape stands for. */
  function ShortEscape(c: char): Option<char> {
    match c
    case '"' => Some('"')
    case '\\' => Some('\\')
    case '/' => Some('/')
    case 'b' => Some('\U{8}')
    case 'f' => Some('\U{C}')
    case 'n' => Some('\n')
    case 'r' => Some('\r')
    case 't' => Some('\t')
    case _ => None
  }

  function Prepend(c: char, rest: Option<string>): Option<string> {
    match rest
    case None => None
    case Some(s) => Some([c] + s)
  }

  /** Reads the body of a JSON string (section 7); surrogate pairs are not decoded. */
  function Unescape(t: string): Option<string>
    decreases |t|
  {
    if t == [] then Some([])
    else if t[0] == '"' || IsControl(t[0]) then None
    else if t[0] != '\\' then Prepend(t[0], Unescape(t[1..]))
    else if |t| < 2 then None
    else if t[1] != 'u' then
      match ShortEscape(t[1])
      case None => None
      case Some(c) => Prepend(c, Unescape(t[2..]))
    else if |t| < 6 then None
    else
      match Hex4(t[2..])
      case None => None
      case Some(v) => if v >= 0xD800 then None else Prepend(v as char, Unescape(t[6..]))
  }

  lemma ControlHex(c: char)
    requires IsControl(c)
    ensures HexValue(HexDigit(c as int / 16)) == Some(c as int / 16)
    ensures HexValue(HexDigit(c as int % 16)) == Some(c as int % 16)
  {
  }

  lemma UnescapeUnit(c: char, rest: string)
    ensures Unescape(EscapeChar(c) + rest) == Prepend(c, Unescape(rest))
  {
    var t := EscapeChar(c) + rest;
    if |EscapeChar(c)| == 2 {
      assert t[2..] == rest;
    } else if IsControl(c) {
      assert t[6..] == rest;
      ControlHex(c);
      assert t[2..][0] == '0' && t[2..][1] == '0';
      assert t[2..][2] == HexDigit(c as int / 16) && t[2..][3] == HexDigit(c as int % 16);
    } else {
      assert t[1..] == rest;
    }
  }

  /** Every string survives escaping and reading back. */
  lemma {:induction false} EscapeRoundTrip(s: string)
    ensures Unescape(Escape(s)) == Some(s)
  {
    if s != [] {
      EscapeRoundTrip(s[1..]);
      UnescapeUnit(s[0], Escape(s[1..]));
      assert s == [s[0]] + s[1..];
    }
  }

  // ---------- characters that are written as they are ----------

  predicate IsPlain(c: char) {
    c != '"' && c != '\\' && !IsControl(c)
  }

  predicate AllPlain(s: string) {
    forall i :: 0 <= i < |s| ==> IsPlain(s[i])
  }

  /** The escape table, by length: seven characters have a short escape, the other control
      characters a six-character one, and the rest are written as they are. */
  lemma EscapeTable(c: char)
    ensures |EscapeChar(c)| ==
      if c in {'"', '\\', '\U{8}', '\U{C}', '\n', '\r', '\t'} then 2 else if c < ' ' then 6 else 1
    ensures Unescape(EscapeChar(c)) == Some([c])
  {
    UnescapeUnit(c, "");
    assert EscapeChar(c) + "" == EscapeChar(c) && [c] + "" == [c];
  }

  lemma EscapeUnitShape(c: char)
    ensures IsPlain(c) <==> EscapeChar(c) == [c]
    ensures !IsPlain(c) ==> |EscapeChar(c)| >= 2 && EscapeChar(c)[0] == '\\'
  {
  }

  lemma {:induction false} EscapeGrows(s: string)
    ensures |Escape(s)| >= |s|
    ensures |Escape(s)| == |s| <==> AllPlain(s)
    ensures AllPlain(s) ==> Escape(s) == s
  {
    if s != [] {
      EscapeGrows(s[1..]);
      EscapeUnitShape(s[0]);
      assert AllPlain(s) <==> IsPlain(s[0]) && AllPlain(s[1..]) by {
        assert forall i :: 0 < i < |s| ==> s[i] == s[1..][i - 1];
      }
    }
  }

  // ---------- string lists ----------

  function PrintItems(items: seq<string>): string {
    if items == [] then ""
    else if |items| == 1 then Quote(items[0])
    else Quote(items[0]) + [','] + PrintItems(items[1..])
  }

  function PrintList(items: seq<string>): string {
    ['['] + PrintItems(items) + [']']
  }

  lemma {:induction false} PrintItemsSnoc(items: seq<string>, last: string)
    ensures PrintItems(items + [last]) ==
      if items == [] then Quote(last) else PrintItems(items) + [','] + Quote(last)
  {
    if items == [] {
      assert items + [last] == [last];
    } else {
      assert (items + [last])[1..] == items[1..] + [last];
      PrintItemsSnoc(items[1..], last);
    }
  }

  /** The printed form of a prefix, one element longer. */
  lemma PrintPrefix(items: seq<string>, i: nat)
    requires i < |items|
    ensures PrintItems(items[..i + 1]) ==
      if i == 0 then Quote(items[0]) else PrintItems(items[..i]) + [','] + Quote(items[i])
  {
    PrintItemsSnoc(items[..i], items[i]);
    assert items[..i + 1] == items[..i] + [items[i]];
  }

  /** The printer appends one quoted string per element. */
  method StringVectorToJsonArray(items: seq<string>) returns (json: string)
    ensures json == PrintList(items)
  {
    var body := "";
    var i := 0;
    while i < |items|
      invariant 0 <= i <= |items|
      invariant body == PrintItems(items[..i])
    {
      PrintPrefix(items, i);
      if i > 0 { body := body + [',']; }
      var escaped := EscapeJsonString(items[i]);
      body := body + (['"'] + escaped + ['"']);
      i := i + 1;
    }
    assert items[..i] == items;
    json := ['['] + body + [']'];
  }

  function NonEmpty(items: seq<string>): (r: seq<string>)
    ensures forall s :: s in r <==> s in items && s != ""
  {
    if items == [] then []
    else if items[0] == "" then NonEmpty(items[1..])
    else [items[0]] + NonEmpty(items[1..])
  }

  lemma NonEmptyCons(a: string, b: seq<string>)
    ensures NonEmpty([a] + b) == NonEmpty([a]) + NonEmpty(b)
  {
    assert ([a] + b)[1..] == b && [a][1..] == [];
  }

  function EscapeAll(items: seq<string>): (r: seq<string>)
    ensures |r| == |items| && forall i :: 0 <= i < |r| ==> r[i] == Escape(items[i])
  {
    if items == [] then [] else [Escape(items[0])] + EscapeAll(items[1..])
  }

  // ---------- value trees ----------

  /** `true`, `false`, `null` and numbers are made of these characters only. */
  predicate IsLiteralChar(c: char) {
    IsDigit(c) || 'a' <= c <= 'z' || c == 'E' || c == '+' || c == '-' || c == '.'
  }

  type LiteralText = s: string | |s| > 0 && forall i :: 0 <= i < |s| ==> IsLiteralChar(s[i]) witness "0"

  datatype Json =
    | Literal(text: LiteralText)
    | Str(s: string)
    | Arr(items: seq<Json>)
    | Obj(members: seq<Member>)

  datatype Member = Member(name: string, value: Json)

  function Print(j: Json): string
    decreases j, 1
  {
    match j
    case Literal(text) => text
    case Str(s) => Quote(s)
    case Arr(items) => ['['] + PrintValues(items) + [']']
    case Obj(members) => ['{'] + PrintMembers(members) + ['}']
  }

  function PrintValues(items: seq<Json>): string
    decreases items, 0
  {
    if items == [] then ""
    else if |items| == 1 then Print(items[0])
    else Print(items[0]) + [','] + PrintValues(items[1..])
  }

  function PrintMember(m: Member): string
    decreases m, 0
  {
    Quote(m.name) + [':'] + Print(m.value)
  }

  function PrintMembers(members: seq<Member>): string
    decreases members, 0
  {
    if members == [] then ""
    else if |members| == 1 then PrintMember(members[0])
    else PrintMember(members[0]) + [','] + PrintMembers(members[1..])
  }
}
