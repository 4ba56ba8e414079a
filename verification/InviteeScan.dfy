/** The comma splitter that reads the invitee list of a group invitation. */
module InviteeScan {
  import opened Text
  import opened JsonText

  predicate IsBlank(c: char) {
    c == ' ' || c == '\t'
  }

  function TrimStart(t: string): (r: string)
    ensures |r| <= |t|
  {
    if t != "" && IsBlank(t[0]) then TrimStart(t[1..]) else t
  }

  function TrimEnd(t: string): (r: string)
    ensures |r| <= |t|
  {
    if t != "" && IsBlank(t[|t| - 1]) then TrimEnd(t[..|t| - 1]) else t
  }

  function Trim(t: string): string {
    TrimEnd(TrimStart(t))
  }

  function Unquote(piece: string): string {
    if |piece| >= 2 && piece[0] == '"' && piece[|piece| - 1] == '"' then piece[1..|piece| - 1] else piece
  }

  function PieceEnd(t: string): (end: nat)
    ensures end <= |t|
  {
    match FindChar(t, ',', 0)
    case Some(k) => k
    case None => |t|
  }

  function AddNonEmpty(result: seq<string>, id: string): seq<string> {
    if id == "" then result else result + [id]
  }

  /** One id and the text after its comma. */
  datatype Piece = Piece(id: string, rest: string)

  /** Skip blanks, take the text up to the next comma, strip quotes and blanks. */
  function Head(content: string): (r: Option<Piece>)
    ensures r.Some? ==> |r.value.rest| < |content|
  {
    var t := TrimStart(content);
    if t == "" then None
    else
      var end := PieceEnd(t);
      Some(Piece(Trim(Unquote(t[..end])), if end == |t| then "" else t[end + 1..]))
  }

  function Split(result: seq<string>, content: string): seq<string>
    decreases |content|
  {
    match Head(content)
    case None => result
    case Some(p) => Split(AddNonEmpty(result, p.id), p.rest)
  }

  /** `std::string::rfind` of one character. */
  function RFindChar(s: string, c: char): (r: Option<nat>)
    ensures r.Some? ==> r.value < |s| && s[r.value] == c
  {
    if s == "" then None
    else if s[|s| - 1] == c then Some(|s| - 1)
    else RFindChar(s[..|s| - 1], c)
  }

  /** The text between the first opening and the last closing bracket. */
  function BracketContent(json: string): string {
    var start, end := FindChar(json, '[', 0), RFindChar(json, ']');
    if start.Some? && end.Some? && end.value > start.value then json[start.value + 1..end.value] else ""
  }

  function Invitees(json: string): seq<string> {
    Split([], BracketContent(json))
  }

  method ParseInvitees(json: string) returns (result: seq<string>)
    ensures result == Invitees(json)
  {
    var content := BracketContent(json);
    result := [];
    var pos := 0;
    ghost var left := content;
    while pos < |content|
      invariant if pos <= |content| then left == content[pos..] else left == ""
      invariant Split([], content) == Split(result, left)
    {
      var found, userId, next := ReadInvitee(content, pos);
      if !found { break; }
      if userId != "" { result := result + [userId]; }
      left := Head(left).value.rest;
      pos := next;
    }
  }

  lemma SliceOfSuffix(s: string, from: nat, end: nat)
    requires from + end <= |s|
    ensures s[from..][..end] == s[from..from + end]
    ensures from + end < |s| ==> s[from..][end + 1..] == s[from + end + 1..]
  {
  }

  /** One round of the loop: the next id and the position after its comma. */
  method ReadInvitee(content: string, from: nat) returns (found: bool, userId: string, next: nat)
    requires from <= |content|
    ensures found <==> Head(content[from..]).Some?
    ensures found ==> userId == Head(content[from..]).value.id && from < next
    ensures found ==> Head(content[from..]).value.rest == if next <= |content| then content[next..] else ""
  {
    var pos := SkipBlanks(content, from);
    if pos >= |content| { return false, "", pos; }
    ghost var t := TrimStart(content[from..]);
    assert content[pos..] == t;
    var comma := pos + PieceEnd(content[pos..]);
    SliceOfSuffix(content, pos, comma - pos);
    assert content[pos..comma] == t[..PieceEnd(t)];
    userId := TrimBlanks(Unquote(content[pos..comma]));
    return true, userId, comma + 1;
  }

  method SkipBlanks(content: string, from: nat) returns (pos: nat)
    requires from <= |content|
    ensures from <= pos <= |content| && content[pos..] == TrimStart(content[from..])
  {
    pos := from;
    while pos < |content| && IsBlank(content[pos])
      invariant from <= pos <= |content| && TrimStart(content[pos..]) == TrimStart(content[from..])
    {
      assert content[pos..][1..] == content[pos + 1..];
      pos := pos + 1;
    }
  }

  method TrimBlanks(piece: string) returns (userId: string)
    ensures userId == Trim(piece)
  {
    userId := piece;
    while userId != "" && IsBlank(userId[0])
      invariant TrimStart(userId) == TrimStart(piece)
      decreases |userId|
    {
      userId := userId[1..];
    }
    while userId != "" && IsBlank(userId[|userId| - 1])
      invariant TrimEnd(userId) == Trim(piece)
      decreases |userId|
    {
      userId := userId[..|userId| - 1];
    }
  }

  // ---------- what it makes of a printed list ----------

  function TrimAll(xs: seq<string>): (r: seq<string>)
    ensures |r| == |xs| && forall i :: 0 <= i < |r| ==> r[i] == Trim(xs[i])
  {
    if xs == [] then [] else [Trim(xs[0])] + TrimAll(xs[1..])
  }

  function TrimmedEscapes(ids: seq<string>): seq<string> {
    TrimAll(EscapeAll(ids))
  }

  lemma {:induction false} EscapeAddsNoComma(s: string)
    ensures ',' in Escape(s) <==> ',' in s
  {
    if s != [] {
      EscapeAddsNoComma(s[1..]);
      assert s == [s[0]] + s[1..];
      assert ',' in EscapeChar(s[0]) <==> s[0] == ',';
    }
  }

  lemma PieceEndIsLength(q: string, rest: string)
    requires ',' !in q
    ensures PieceEnd(q) == |q|
    ensures PieceEnd(q + [','] + rest) == |q|
  {
    var t := q + [','] + rest;
    assert t[0..|q|] == q;
    FindCharAt(t, ',', 0, |q|);
  }

  /** A quoted id without a comma is one piece. */
  lemma QuoteIsPiece(id: string)
    requires ',' !in id
    ensures ',' !in Quote(id) && Quote(id)[0] == '"' && Unquote(Quote(id)) == Escape(id)
  {
    EscapeAddsNoComma(id);
  }

  /** One quoted id at the front, before a comma or at the end. */
  lemma HeadOfQuoted(id: string, rest: string)
    requires ',' !in id
    ensures Head(Quote(id)) == Some(Piece(Trim(Escape(id)), ""))
    ensures Head(Quote(id) + [','] + rest) == Some(Piece(Trim(Escape(id)), rest))
  {
    var q, t := Quote(id), Quote(id) + [','] + rest;
    QuoteIsPiece(id);
    PieceEndIsLength(q, rest);
    assert q[..|q|] == q && TrimStart(q) == q;
    assert t[0] == '"' && TrimStart(t) == t;
    assert t[..|q|] == q && t[|q| + 1..] == rest;
  }

  lemma AddIsConcat(result: seq<string>, id: string)
    ensures AddNonEmpty(result, id) == result + NonEmpty([id])
  {
    assert [id][1..] == [] && result + [] == result;
  }

  lemma {:induction false} SplitOfPrinted(result: seq<string>, ids: seq<string>)
    requires forall id :: id in ids ==> ',' !in id
    ensures Split(result, PrintItems(ids)) == result + NonEmpty(TrimmedEscapes(ids))
    decreases |ids|
  {
    if ids == [] {
      assert result + [] == result;
    } else {
      var id, rest := ids[0], TrimmedEscapes(ids[1..]);
      var more := AddNonEmpty(result, Trim(Escape(id)));
      AddIsConcat(result, Trim(Escape(id)));
      assert TrimmedEscapes(ids) == [Trim(Escape(id))] + rest;
      NonEmptyCons(Trim(Escape(id)), rest);
      Assoc(result, NonEmpty([Trim(Escape(id))]), NonEmpty(rest));
      HeadOfQuoted(id, PrintItems(ids[1..]));
      if |ids| == 1 {
        assert rest == [] && more + [] == more;
      } else {
        SplitOfPrinted(more, ids[1..]);
      }
    }
  }

  lemma InviteesOfPrinted(ids: seq<string>)
    ensures Invitees(PrintList(ids)) == Split([], PrintItems(ids))
  {
    var t := PrintList(ids);
    FindCharAt(t, '[', 0, 0);
    assert t[|t| - 1] == ']';
    assert t[1..|t| - 1] == PrintItems(ids);
  }

  lemma PieceHasNoComma(t: string)
    ensures ',' !in t[..PieceEnd(t)]
  {
    FindCharFirst(t, ',', 0);
    assert t[0..PieceEnd(t)] == t[..PieceEnd(t)];
  }

  /** Cleaning a piece only drops characters. */
  lemma CleaningDrops(piece: string, c: char)
    requires c !in piece
    ensures c !in Trim(Unquote(piece))
  {
    TrimStartDrops(Unquote(piece), c);
    TrimEndDrops(TrimStart(Unquote(piece)), c);
  }

  lemma {:induction false} TrimStartDrops(t: string, c: char)
    ensures c in TrimStart(t) ==> c in t
    ensures |TrimStart(t)| == |t| ==> TrimStart(t) == t
  {
    if t != "" && IsBlank(t[0]) { TrimStartDrops(t[1..], c); }
  }

  lemma {:induction false} TrimEndDrops(t: string, c: char)
    ensures c in TrimEnd(t) ==> c in t
    ensures |TrimEnd(t)| == |t| ==> TrimEnd(t) == t
  {
    if t != "" && IsBlank(t[|t| - 1]) { TrimEndDrops(t[..|t| - 1], c); }
  }

  lemma HeadHasNoComma(content: string)
    ensures Head(content).Some? ==> ',' !in Head(content).value.id
  {
    var t := TrimStart(content);
    PieceHasNoComma(t);
    CleaningDrops(t[..PieceEnd(t)], ',');
  }

  /** No piece contains a comma. */
  lemma {:induction false} SplitHasNoCommas(result: seq<string>, content: string)
    requires forall s :: s in result ==> ',' !in s
    ensures forall s :: s in Split(result, content) ==> ',' !in s
    decreases |content|
  {
    HeadHasNoComma(content);
    match Head(content)
    case None =>
    case Some(p) => SplitHasNoCommas(AddNonEmpty(result, p.id), p.rest);
  }

  // ---------- when it is exact ----------

  function Total(xs: seq<string>, weight: string -> nat): nat {
    if xs == [] then 0 else weight(xs[0]) + Total(xs[1..], weight)
  }

  lemma {:induction false} TotalOfNonEmpty(xs: seq<string>, weight: string -> nat)
    requires weight("") == 0
    ensures Total(NonEmpty(xs), weight) == Total(xs, weight)
  {
    if xs != [] {
      TotalOfNonEmpty(xs[1..], weight);
      if xs[0] != "" { assert NonEmpty(xs)[1..] == NonEmpty(xs[1..]); }
    }
  }

  /** Pointwise smaller weights with the same total are the same weights. */
  lemma {:induction false} TotalsAgree(xs: seq<string>, ys: seq<string>, weight: string -> nat)
    requires |xs| == |ys| && forall i :: 0 <= i < |xs| ==> weight(xs[i]) <= weight(ys[i])
    ensures Total(xs, weight) <= Total(ys, weight)
    ensures Total(xs, weight) == Total(ys, weight) ==> forall i :: 0 <= i < |xs| ==> weight(xs[i]) == weight(ys[i])
  {
    if xs != [] {
      TotalsAgree(xs[1..], ys[1..], weight);
      if Total(xs, weight) == Total(ys, weight) {
        forall i | 0 <= i < |xs| ensures weight(xs[i]) == weight(ys[i]) {
          if i > 0 { assert xs[1..][i - 1] == xs[i] && ys[1..][i - 1] == ys[i]; }
        }
      }
    }
  }

  /** How many characters are not blank. */
  function Solid(s: string): nat {
    if s == "" then 0 else (if IsBlank(s[0]) then 0 else 1) + Solid(s[1..])
  }

  lemma {:induction false} SolidConcat(a: string, b: string)
    ensures Solid(a + b) == Solid(a) + Solid(b)
  {
    if a == "" {
      assert a + b == b;
    } else {
      assert (a + b)[1..] == a[1..] + b;
      SolidConcat(a[1..], b);
    }
  }

  lemma {:induction false} SolidTrimEnd(t: string)
    ensures Solid(TrimEnd(t)) == Solid(t)
  {
    if t != "" && IsBlank(t[|t| - 1]) {
      SolidTrimEnd(t[..|t| - 1]);
      SolidConcat(t[..|t| - 1], [t[|t| - 1]]);
      assert t == t[..|t| - 1] + [t[|t| - 1]];
    }
  }

  lemma {:induction false} SolidTrim(t: string)
    ensures Solid(Trim(t)) == Solid(t)
  {
    if t != "" && IsBlank(t[0]) { SolidTrim(t[1..]); } else { SolidTrimEnd(t); }
  }

  /** Escaping adds solid characters exactly when something is escaped. */
  lemma {:induction false} SolidEscape(s: string)
    ensures Solid(Escape(s)) >= Solid(s)
    ensures Solid(Escape(s)) == Solid(s) <==> AllPlain(s)
  {
    if s != "" {
      SolidEscape(s[1..]);
      SolidUnit(s[0]);
      SolidConcat(EscapeChar(s[0]), Escape(s[1..]));
      assert AllPlain(s) <==> IsPlain(s[0]) && AllPlain(s[1..]) by {
        assert forall i :: 0 < i < |s| ==> s[i] == s[1..][i - 1];
      }
    }
  }

  lemma SolidUnit(c: char)
    ensures Solid(EscapeChar(c)) >= Solid([c])
    ensures Solid(EscapeChar(c)) == Solid([c]) <==> IsPlain(c)
    ensures Solid([c]) == if IsBlank(c) then 0 else 1
  {
    var t := EscapeChar(c);
    assert [c][1..] == "";
    if !IsPlain(c) {
      assert !IsBlank(t[0]) && !IsBlank(t[1]);
      assert Solid(t) == 1 + Solid(t[1..]) && Solid(t[1..]) == 1 + Solid(t[1..][1..]);
    }
  }

  /** An id the splitter reads back as it was written. */
  predicate Clean(id: string) {
    ',' !in id && AllPlain(id) && Trim(id) == id
  }

  lemma {:induction false} CleanListKept(ids: seq<string>)
    requires forall id :: id in ids ==> Clean(id)
    ensures TrimmedEscapes(ids) == ids
  {
    forall i | 0 <= i < |ids| ensures TrimmedEscapes(ids)[i] == ids[i] {
      assert ids[i] in ids;
      EscapeGrows(ids[i]);
    }
  }

  function SolidOf(): string -> nat { (s: string) => Solid(s) }

  function LengthOf(): string -> nat { (s: string) => |s| }

  lemma KeptListIsClean(ids: seq<string>)
    requires forall id :: id in ids ==> ',' !in id
    requires NonEmpty(TrimmedEscapes(ids)) == NonEmpty(ids)
    ensures forall id :: id in ids ==> Clean(id)
  {
    var out := TrimmedEscapes(ids);
    forall i | 0 <= i < |ids|
      ensures Solid(ids[i]) <= Solid(out[i]) && (Solid(ids[i]) == Solid(out[i]) <==> AllPlain(ids[i]))
    {
      SolidTrim(Escape(ids[i]));
      SolidEscape(ids[i]);
    }
    TotalOfNonEmpty(ids, SolidOf());
    TotalOfNonEmpty(out, SolidOf());
    TotalsAgree(ids, out, SolidOf());
    forall i | 0 <= i < |ids| ensures AllPlain(ids[i]) && out[i] == Trim(ids[i]) {
      assert SolidOf()(ids[i]) == SolidOf()(out[i]);
      EscapeGrows(ids[i]);
    }
    TotalOfNonEmpty(ids, LengthOf());
    TotalOfNonEmpty(out, LengthOf());
    TotalsAgree(out, ids, LengthOf());
    forall i | 0 <= i < |ids| ensures out[i] == ids[i] {
      assert LengthOf()(ids[i]) == LengthOf()(out[i]);
      TrimStartDrops(ids[i], ' ');
      TrimEndDrops(TrimStart(ids[i]), ' ');
    }
  }

  /** The splitter returns the non-empty ids exactly when no id has a comma, a character
      that is escaped, or a blank at an end. */
  lemma InviteesRoundTripIff(ids: seq<string>)
    ensures Invitees(PrintList(ids)) == NonEmpty(ids) <==> forall id :: id in ids ==> Clean(id)
  {
    InviteesOfPrinted(ids);
    if forall id :: id in ids ==> ',' !in id {
      SplitOfPrinted([], ids);
      assert [] + NonEmpty(TrimmedEscapes(ids)) == NonEmpty(TrimmedEscapes(ids));
      if forall id :: id in ids ==> Clean(id) {
        CleanListKept(ids);
      } else if NonEmpty(TrimmedEscapes(ids)) == NonEmpty(ids) {
        KeptListIsClean(ids);
      }
    } else {
      var id :| id in ids && ',' in id;
      SplitHasNoCommas([], PrintItems(ids));
      assert id in NonEmpty(ids);
    }
  }

  // ---------- lists with blanks ----------

  predicate AllBlank(t: string) {
    forall i :: 0 <= i < |t| ==> IsBlank(t[i])
  }

  /** Texts separated by commas, each behind some blanks. */
  function Spaced(gaps: seq<string>, items: seq<string>): string
    requires |gaps| == |items|
  {
    if items == [] then ""
    else if |items| == 1 then gaps[0] + items[0]
    else gaps[0] + (items[0] + ([','] + Spaced(gaps[1..], items[1..])))
  }

  function CleanAll(items: seq<string>): (r: seq<string>)
    ensures |r| == |items| && forall i :: 0 <= i < |r| ==> r[i] == Trim(Unquote(items[i]))
  {
    if items == [] then [] else [Trim(Unquote(items[0]))] + CleanAll(items[1..])
  }

  /** A text that can be told from its neighbours: it has no comma and does not start blank. */
  predicate IsItem(item: string) {
    ',' !in item && item != "" && !IsBlank(item[0])
  }

  lemma {:induction false} GapIsSkipped(gap: string, t: string)
    requires AllBlank(gap) && t != "" && !IsBlank(t[0])
    ensures TrimStart(gap + t) == t
  {
    if gap == "" {
      assert gap + t == t;
    } else {
      assert (gap + t)[1..] == gap[1..] + t;
      GapIsSkipped(gap[1..], t);
    }
  }

  lemma HeadOfItem(gap: string, item: string, rest: string)
    requires AllBlank(gap) && IsItem(item)
    ensures Head(gap + item) == Some(Piece(Trim(Unquote(item)), ""))
    ensures Head(gap + (item + ([','] + rest))) == Some(Piece(Trim(Unquote(item)), rest))
  {
    var t := item + ([','] + rest);
    GapIsSkipped(gap, item);
    GapIsSkipped(gap, t);
    PieceEndIsLength(item, rest);
    assert t == item + [','] + rest;
    assert item[..|item|] == item && t[..|item|] == item && t[|item| + 1..] == rest;
  }

  lemma {:induction false} SplitOfSpaced(result: seq<string>, gaps: seq<string>, items: seq<string>)
    requires |gaps| == |items|
    requires forall i :: 0 <= i < |items| ==> AllBlank(gaps[i]) && IsItem(items[i])
    ensures Split(result, Spaced(gaps, items)) == result + NonEmpty(CleanAll(items))
    decreases |items|
  {
    if items == [] {
      assert result + [] == result;
    } else {
      var id, rest := Trim(Unquote(items[0])), CleanAll(items[1..]);
      var more := AddNonEmpty(result, id);
      AddIsConcat(result, id);
      NonEmptyCons(id, rest);
      Assoc(result, NonEmpty([id]), NonEmpty(rest));
      HeadOfItem(gaps[0], items[0], if |items| == 1 then "" else Spaced(gaps[1..], items[1..]));
      if |items| == 1 {
        assert rest == [] && more + [] == more;
      } else {
        SplitOfSpaced(more, gaps[1..], items[1..]);
      }
    }
  }

  /** A list whose items stand behind any spaces and tabs: each item is read without its
      quotes and without blanks at its ends, in order, and empty ones are dropped. */
  lemma InviteesOfSpaced(gaps: seq<string>, items: seq<string>)
    requires |gaps| == |items|
    requires forall i :: 0 <= i < |items| ==> AllBlank(gaps[i]) && IsItem(items[i])
    ensures Invitees(['['] + Spaced(gaps, items) + [']']) == NonEmpty(CleanAll(items))
  {
    var content := Spaced(gaps, items);
    var t := ['['] + content + [']'];
    FindCharAt(t, '[', 0, 0);
    assert t[|t| - 1] == ']' && t[1..|t| - 1] == content;
    SplitOfSpaced([], gaps, items);
    assert [] + NonEmpty(CleanAll(items)) == NonEmpty(CleanAll(items));
  }

  lemma {:induction false} TrimEndKeeps(t: string, blanks: string)
    requires AllBlank(blanks) && (t == "" || !IsBlank(t[|t| - 1]))
    ensures TrimEnd(t + blanks) == t
    decreases |blanks|
  {
    if blanks == "" {
      assert t + blanks == t;
    } else {
      assert (t + blanks)[..|t + blanks| - 1] == t + blanks[..|blanks| - 1];
      TrimEndKeeps(t, blanks[..|blanks| - 1]);
    }
  }

  /** What one item is read as: a quoted id that needs no escape and has no blanks at its ends
      as it is, and so an id without quotes; but a blank behind the closing quotation mark
      leaves both marks in the id. */
  lemma ItemIsRead(id: string, blanks: string)
    requires Clean(id) && id != "" && AllBlank(blanks)
    ensures Trim(Unquote(['"'] + id + ['"'])) == id
    ensures Trim(Unquote(id)) == id
    ensures blanks != "" ==> Trim(Unquote(['"'] + id + ['"'] + blanks)) == ['"'] + id + ['"']
  {
    var quoted := ['"'] + id + ['"'];
    assert quoted[1..|quoted| - 1] == id;
    if blanks != "" {
      assert (quoted + blanks)[|quoted + blanks| - 1] == blanks[|blanks| - 1];
      TrimEndKeeps(quoted, blanks);
    }
  }
}
