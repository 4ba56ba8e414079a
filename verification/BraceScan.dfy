/** The string-aware brace scanner: it finds the end of a JSON object inside a larger text. */
module BraceScan {
  import opened Text
  import opened JsonText

  /** The scanner's variables. */
  datatype Scan = Scan(depth: int, inString: bool, escapeNext: bool)

  predicate Closes(c: char, s: Scan) {
    !s.escapeNext && !s.inString && c == '}' && s.depth == 1
  }

  function Next(c: char, s: Scan): Scan {
    if s.escapeNext then s.(escapeNext := false)
    else if c == '\\' then s.(escapeNext := true)
    else if c == '"' then s.(inString := !s.inString)
    else if s.inString then s
    else if c == '{' then s.(depth := s.depth + 1)
    else if c == '}' then s.(depth := s.depth - 1)
    else s
  }

  function Shift(n: nat, r: Option<nat>): Option<nat> {
    match r
    case None => None
    case Some(k) => Some(n + k)
  }

  /** Offset of the brace that brings the depth back to zero, scanning from a given state. */
  function BraceEnd(t: string, s: Scan): (r: Option<nat>)
    ensures r.Some? ==> r.value < |t| && t[r.value] == '}'
  {
    if t == [] then None
    else if Closes(t[0], s) then Some(0)
    else Shift(1, BraceEnd(t[1..], Next(t[0], s)))
  }

  const START := Scan(0, false, false)

  /** The end of the object that starts at `objStart`, when the scan of what is left from
      position `i` gives `r`; the start itself stands for "not found". */
  function EndAt(objStart: nat, i: nat, r: Option<nat>): nat {
    match r
    case None => objStart
    case Some(k) => i + k
  }

  /** One character further. */
  lemma BraceEndStep(json: string, objStart: nat, i: nat, s: Scan)
    requires i < |json|
    ensures EndAt(objStart, i, BraceEnd(json[i..], s)) ==
      if Closes(json[i], s) then i else EndAt(objStart, i + 1, BraceEnd(json[i + 1..], Next(json[i], s)))
  {
    assert json[i..][0] == json[i] && json[i..][1..] == json[i + 1..];
  }

  /** The scanning loop. */
  method FindObjectEnd(json: string, objStart: nat) returns (objEnd: nat)
    requires objStart <= |json|
    ensures objEnd == EndAt(objStart, objStart, BraceEnd(json[objStart..], START))
  {
    ghost var expected := EndAt(objStart, objStart, BraceEnd(json[objStart..], START));
    var braceCount, inString, escapeNext := 0, false, false;
    objEnd := objStart;
    ghost var s := START;
    var i := objStart;
    while i < |json|
      invariant objStart <= i <= |json|
      invariant objEnd == objStart
      invariant s == Scan(braceCount, inString, escapeNext)
      invariant expected == EndAt(objStart, i, BraceEnd(json[i..], s))
    {
      var c := json[i];
      BraceEndStep(json, objStart, i, s);
      ghost var closes := Closes(c, s);
      s := Next(c, s);
      if escapeNext {
        escapeNext := false;
      } else if c == '\\' {
        escapeNext := true;
      } else if c == '"' {
        inString := !inString;
      } else if !inString {
        if c == '{' {
          braceCount := braceCount + 1;
        } else if c == '}' {
          braceCount := braceCount - 1;
          if braceCount == 0 {
            assert closes;
            objEnd := i;
            break;
          }
        }
      }
      i := i + 1;
    }
  }

  // ---------- how printed text moves the scanner ----------

  /** The state after a text, unless the scan stops inside it. */
  function After(t: string, s: Scan): Option<Scan> {
    if t == [] then Some(s)
    else if Closes(t[0], s) then None
    else After(t[1..], Next(t[0], s))
  }

  lemma {:induction false} AfterConcat(a: string, b: string, s: Scan)
    ensures After(a + b, s) == match After(a, s) { case None => None case Some(u) => After(b, u) }
  {
    if a == [] {
      assert a + b == b;
    } else {
      assert (a + b)[1..] == a[1..] + b;
      if !Closes(a[0], s) { AfterConcat(a[1..], b, Next(a[0], s)); }
    }
  }

  /** Text that the scan passes can be skipped. */
  lemma {:induction false} BraceEndSkips(a: string, b: string, s: Scan, u: Scan)
    requires After(a, s) == Some(u)
    ensures BraceEnd(a + b, s) == Shift(|a|, BraceEnd(b, u))
  {
    if a == [] {
      assert a + b == b;
    } else {
      assert (a + b)[1..] == a[1..] + b;
      BraceEndSkips(a[1..], b, Next(a[0], s), u);
    }
  }

  lemma {:induction false} AfterLiteral(text: string, depth: int)
    requires forall i :: 0 <= i < |text| ==> IsLiteralChar(text[i])
    ensures After(text, Scan(depth, false, false)) == Some(Scan(depth, false, false))
  {
    if text != [] { AfterLiteral(text[1..], depth); }
  }

  /** Plain characters inside a string do not move the scanner. */
  lemma {:induction false} AfterPlain(t: string, depth: int)
    requires forall i :: 0 <= i < |t| ==> t[i] != '"' && t[i] != '\\'
    ensures After(t, Scan(depth, true, false)) == Some(Scan(depth, true, false))
  {
    if t != [] { AfterPlain(t[1..], depth); }
  }

  /** The escaped form of one character leaves the scanner inside the string. */
  lemma AfterUnit(c: char, depth: int)
    ensures After(EscapeChar(c), Scan(depth, true, false)) == Some(Scan(depth, true, false))
  {
    var t := EscapeChar(c);
    if !IsPlain(c) {
      assert t == [t[0]] + ([t[1]] + t[2..]) && t[1..][1..] == t[2..];
      AfterPlain(t[2..], depth);
      assert After(t[1..], Scan(depth, true, true)) == After(t[2..], Scan(depth, true, false));
    }
  }

  lemma {:induction false} AfterBody(s: string, depth: int)
    ensures After(Escape(s), Scan(depth, true, false)) == Some(Scan(depth, true, false))
  {
    if s != [] {
      AfterUnit(s[0], depth);
      AfterBody(s[1..], depth);
      AfterConcat(EscapeChar(s[0]), Escape(s[1..]), Scan(depth, true, false));
    }
  }

  lemma AfterOne(c: char, s: Scan)
    ensures After([c], s) == if Closes(c, s) then None else Some(Next(c, s))
  {
    assert [c][1..] == [];
  }

  lemma AfterQuote(s: string, depth: int)
    ensures After(Quote(s), Scan(depth, false, false)) == Some(Scan(depth, false, false))
  {
    var out, inside := Scan(depth, false, false), Scan(depth, true, false);
    AfterOne('"', out);
    AfterBody(s, depth);
    AfterConcat(['"'], Escape(s), out);
    AfterOne('"', inside);
    AfterConcat(['"'] + Escape(s), ['"'], out);
  }

  /** A text that leaves the scanner where it was, between two given characters. */
  lemma AfterEnclosed(open: char, t: string, close: char, s: Scan, u: Scan)
    requires After([open], s) == Some(u) && After(t, u) == Some(u)
    ensures After([open] + t + [close], s) == After([close], u)
  {
    AfterConcat([open], t, s);
    AfterConcat([open] + t, [close], s);
  }

  /** Two passed-over texts with a separator between them. */
  lemma AfterJoined(a: string, sep: char, b: string, s: Scan)
    requires After(a, s) == Some(s) && After([sep], s) == Some(s) && After(b, s) == Some(s)
    ensures After(a + [sep] + b, s) == Some(s)
  {
    AfterConcat(a, [sep], s);
    AfterConcat(a + [sep], b, s);
  }

  /** Inside an object, a whole printed value is passed over at the same depth. */
  lemma {:induction false} AfterValue(j: Json, depth: int)
    requires depth >= 1
    ensures After(Print(j), Scan(depth, false, false)) == Some(Scan(depth, false, false))
    decreases j, 1
  {
    var s, deeper := Scan(depth, false, false), Scan(depth + 1, false, false);
    match j
    case Literal(text) => AfterLiteral(text, depth);
    case Str(text) => AfterQuote(text, depth);
    case Arr(items) =>
      AfterOne('[', s);
      AfterValues(items, depth);
      AfterEnclosed('[', PrintValues(items), ']', s, s);
      AfterOne(']', s);
    case Obj(members) =>
      AfterOne('{', s);
      AfterMembers(members, depth + 1);
      AfterEnclosed('{', PrintMembers(members), '}', s, deeper);
      AfterOne('}', deeper);
  }

  lemma {:induction false} AfterValues(items: seq<Json>, depth: int)
    requires depth >= 1
    ensures After(PrintValues(items), Scan(depth, false, false)) == Some(Scan(depth, false, false))
    decreases items, 0
  {
    if items != [] {
      AfterValue(items[0], depth);
      AfterValues(items[1..], depth);
      AfterOne(',', Scan(depth, false, false));
      AfterJoined(Print(items[0]), ',', PrintValues(items[1..]), Scan(depth, false, false));
    }
  }

  lemma {:induction false} AfterMember(m: Member, depth: int)
    requires depth >= 1
    ensures After(PrintMember(m), Scan(depth, false, false)) == Some(Scan(depth, false, false))
    decreases m, 0
  {
    AfterQuote(m.name, depth);
    AfterValue(m.value, depth);
    AfterOne(':', Scan(depth, false, false));
    AfterJoined(Quote(m.name), ':', Print(m.value), Scan(depth, false, false));
  }

  lemma {:induction false} AfterMembers(members: seq<Member>, depth: int)
    requires depth >= 1
    ensures After(PrintMembers(members), Scan(depth, false, false)) == Some(Scan(depth, false, false))
    decreases members, 0
  {
    if members != [] {
      AfterMember(members[0], depth);
      AfterMembers(members[1..], depth);
      AfterOne(',', Scan(depth, false, false));
      AfterJoined(PrintMember(members[0]), ',', PrintMembers(members[1..]), Scan(depth, false, false));
    }
  }

  /** For every object tree and every text after it, the scan stops exactly on the
      object's own closing brace, whatever its strings contain. */
  lemma BraceScanFindsObject(members: seq<Member>, rest: string)
    ensures BraceEnd(Print(Obj(members)) + rest, START) == Some(|Print(Obj(members))| - 1)
  {
    var inside := Scan(1, false, false);
    var body := ['{'] + PrintMembers(members);
    AfterOne('{', START);
    AfterMembers(members, 1);
    AfterConcat(['{'], PrintMembers(members), START);
    assert Print(Obj(members)) + rest == body + (['}'] + rest);
    BraceEndSkips(body, ['}'] + rest, START, inside);
  }

  // ---------- texts that are not whole objects ----------

  /** The scan finds nothing exactly when it passes the whole text; what it finds is a brace
      that closes the depth one it has come to. */
  lemma {:induction false} BraceEndIff(t: string, s: Scan)
    ensures BraceEnd(t, s) == None <==> After(t, s).Some?
    ensures BraceEnd(t, s).Some? ==>
      var k := BraceEnd(t, s).value; After(t[..k], s).Some? && Closes(t[k], After(t[..k], s).value)
  {
    if t != [] && !Closes(t[0], s) {
      BraceEndIff(t[1..], Next(t[0], s));
      if BraceEnd(t, s).Some? {
        var k := BraceEnd(t, s).value;
        assert t[..k][1..] == t[1..][..k - 1];
      }
    } else if t != [] {
      assert t[..0] == [];
    }
  }

  /** What is found does not depend on what follows. */
  lemma {:induction false} BraceEndStays(a: string, b: string, s: Scan)
    requires BraceEnd(a, s).Some?
    ensures BraceEnd(a + b, s) == BraceEnd(a, s)
  {
    assert (a + b)[1..] == a[1..] + b;
    if !Closes(a[0], s) { BraceEndStays(a[1..], b, Next(a[0], s)); }
  }

  /** A printed object that is cut short has no end. */
  lemma CutShortHasNoEnd(members: seq<Member>, n: nat)
    requires n < |Print(Obj(members))|
    ensures BraceEnd(Print(Obj(members))[..n], START) == None
  {
    var whole := Print(Obj(members));
    if BraceEnd(whole[..n], START).Some? {
      BraceEndStays(whole[..n], whole[n..], START);
      assert whole[..n] + whole[n..] == whole && whole + [] == whole;
      BraceScanFindsObject(members, []);
    }
  }
}
