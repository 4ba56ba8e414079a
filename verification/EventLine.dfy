/** The routed event lines "<prefix><instance id>:<rest>". */
module EventLine {
  import opened Text

  const MAX_INT64: nat := 0x7FFF_FFFF_FFFF_FFFF

  const PREFIXES: seq<string> :=
    ["progress_recv:", "file_done:", "file_request:", "avatar_request:", "file_recv_failed:"]

  /** The longest run of digits at the front. */
  function DigitRun(s: string): (n: nat)
    ensures n <= |s| && AllDigits(s[..n])
    ensures n < |s| ==> !IsDigit(s[n])
  {
    if s == [] || !IsDigit(s[0]) then 0
    else
      var rest := DigitRun(s[1..]);
      assert forall i :: 0 < i < 1 + rest ==> s[i] == s[1..][i - 1];
      1 + rest
  }

  /** `std::from_chars` in base 10, for a text that does not start with a sign: the value
      of the digits, or nothing when there are none or the value exceeds int64; and where
      the digits end. */
  method FromChars(s: string) returns (value: Option<nat>, end: nat)
    ensures end == DigitRun(s)
    ensures value == if end > 0 && Value(s[..end]) <= MAX_INT64 then Some(Value(s[..end])) else None
  {
    var total: nat := 0;
    end := 0;
    var overflow := false;
    while end < |s| && IsDigit(s[end])
      invariant end <= |s| && AllDigits(s[..end])
      invariant overflow <==> Value(s[..end]) > MAX_INT64
      invariant !overflow ==> total == Value(s[..end])
    {
      assert s[..end + 1][..end] == s[..end];
      if !overflow {
        total := 10 * total + DigitValue(s[end]);
        overflow := total > MAX_INT64;
      }
      end := end + 1;
    }
    DigitRunIs(s, end);
    value := if end == 0 || overflow then None else Some(total);
  }

  lemma DigitRunIs(s: string, end: nat)
    requires end <= |s| && AllDigits(s[..end]) && (end < |s| ==> !IsDigit(s[end]))
    ensures DigitRun(s) == end
  {
    var n := DigitRun(s);
    assert forall i :: 0 <= i < end ==> s[i] == s[..end][i] && IsDigit(s[i]);
    assert forall i :: 0 <= i < n ==> s[i] == s[..n][i] && IsDigit(s[i]);
  }

  /** The first prefix of the table that the line starts with. */
  function MatchPrefix(line: string, prefixes: seq<string>): (r: Option<string>)
    ensures r.Some? ==> r.value in prefixes && r.value <= line
    ensures r.None? ==> forall p :: p in prefixes ==> !(p <= line)
  {
    if prefixes == [] then None
    else if prefixes[0] <= line then Some(prefixes[0])
    else
      assert forall p :: p in prefixes <==> p == prefixes[0] || p in prefixes[1..];
      MatchPrefix(line, prefixes[1..])
  }

  /** The id field of a line: what follows the prefix, up to the next colon. */
  function IdText(line: string, prefixes: seq<string>): Option<string> {
    match MatchPrefix(line, prefixes)
    case None => None
    case Some(p) =>
      match FindChar(line, ':', |p|)
      case None => None
      case Some(k) => Some(line[|p|..k])
  }

  function IdValue(id: Option<string>): nat {
    match id
    case None => 0
    case Some(id) => if id != "" && AllDigits(id) && Value(id) <= MAX_INT64 then Value(id) else 0
  }

  function InstanceId(line: string): nat {
    IdValue(IdText(line, PREFIXES))
  }

  method ParseInstanceIdFromLine(line: string) returns (r: nat)
    ensures r == InstanceId(line)
  {
    var recognized, idText := FindIdText(line, PREFIXES);
    if !recognized || idText == "" || !IsDigit(idText[0]) { return 0; }
    var value, end := FromChars(idText);
    assert end == |idText| <==> AllDigits(idText) by { if AllDigits(idText) { DigitRunIs(idText, |idText|); } }
    assert end == |idText| ==> idText[..end] == idText;
    if value.None? || end != |idText| || value.value == 0 { return 0; }
    return value.value;
  }

  /** The loop over the prefixes; a line without a colon after its prefix is not recognized. */
  method FindIdText(line: string, prefixes: seq<string>) returns (recognized: bool, idText: string)
    ensures IdText(line, prefixes) == if recognized then Some(idText) else None
  {
    recognized, idText := false, "";
    var i := 0;
    while i < |prefixes| && !recognized
      invariant 0 <= i <= |prefixes|
      invariant !recognized ==> MatchPrefix(line, prefixes) == MatchPrefix(line, prefixes[i..])
      invariant recognized ==> IdText(line, prefixes) == Some(idText)
    {
      assert prefixes[i..][1..] == prefixes[i + 1..];
      var prefix := prefixes[i];
      if prefix <= line {
        var delimiter := FindChar(line, ':', |prefix|);
        if delimiter.None? { return; }
        idText := line[|prefix|..delimiter.value];
        recognized := true;
      }
      i := i + 1;
    }
  }

  // ---------- what is parsed ----------

  /** No prefix is the start of another, so at most one fits a line. */
  lemma PrefixUnique(p: string, q: string, line: string)
    requires p in PREFIXES && q in PREFIXES && p <= line && q <= line
    ensures p == q
  {
    var i :| 0 <= i < 5 && PREFIXES[i] == p;
    var j :| 0 <= j < 5 && PREFIXES[j] == q;
    assert forall k :: 0 <= k < |p| ==> p[k] == line[k];
    assert forall k :: 0 <= k < |q| ==> q[k] == line[k];
    PrefixesDiffer(i, j);
  }

  /** Two different prefixes differ at one of the first six characters. */
  lemma PrefixesDiffer(i: nat, j: nat)
    requires i < 5 && j < 5
    ensures |PREFIXES[i]| >= 10 && |PREFIXES[j]| >= 10
    ensures i == j || PREFIXES[i][0] != PREFIXES[j][0] || PREFIXES[i][5] != PREFIXES[j][5]
      || PREFIXES[i][7] != PREFIXES[j][7]
  {
  }

  /** A line in the routed form. */
  ghost predicate Routed(line: string, prefixes: seq<string>, prefix: string, digits: string, rest: string) {
    prefix in prefixes && digits != "" && AllDigits(digits) && line == prefix + digits + [':'] + rest
  }

  ghost predicate OnePrefix(line: string, prefixes: seq<string>) {
    forall p, q :: p in prefixes && q in prefixes && p <= line && q <= line ==> p == q
  }

  lemma ActualPrefixes(line: string)
    ensures OnePrefix(line, PREFIXES)
  {
    forall p, q | p in PREFIXES && q in PREFIXES && p <= line && q <= line ensures p == q {
      PrefixUnique(p, q, line);
    }
  }

  lemma RoutedId(line: string, prefixes: seq<string>, prefix: string, digits: string, rest: string)
    requires OnePrefix(line, prefixes) && Routed(line, prefixes, prefix, digits, rest)
    ensures IdText(line, prefixes) == Some(digits)
  {
    var p := MatchPrefix(line, prefixes);
    assert prefix <= line;
    assert p.value == prefix;
    DigitsUpToColon(line, prefix, digits, rest);
  }

  lemma DigitsUpToColon(line: string, prefix: string, digits: string, rest: string)
    requires AllDigits(digits) && line == prefix + digits + [':'] + rest
    ensures FindChar(line, ':', |prefix|) == Some(|prefix| + |digits|)
    ensures line[|prefix|..|prefix| + |digits|] == digits
  {
    assert line[|prefix|..|prefix| + |digits|] == digits;
    FindCharAt(line, ':', |prefix|, |prefix| + |digits|);
  }

  /** A line with an id is in the routed form. */
  lemma IdIsRouted(line: string, prefixes: seq<string>, r: nat)
    requires r > 0 && IdValue(IdText(line, prefixes)) == r
    ensures r <= MAX_INT64
    ensures exists prefix, digits, rest :: Routed(line, prefixes, prefix, digits, rest) && Value(digits) == r
  {
    var p := MatchPrefix(line, prefixes).value;
    var k := FindChar(line, ':', |p|).value;
    SplitAtColon(line, p, k);
    assert Routed(line, prefixes, p, line[|p|..k], line[k + 1..]) && Value(line[|p|..k]) == r;
  }

  lemma SplitAtColon(line: string, prefix: string, k: nat)
    requires prefix <= line && |prefix| <= k < |line| && line[k] == ':'
    ensures line == prefix + line[|prefix|..k] + [':'] + line[k + 1..]
  {
  }

  /** A line yields the positive id r exactly when it is one of the five prefixes, digits
      of value r within int64, a colon and any rest. */
  lemma InstanceIdIff(line: string, r: nat)
    requires r > 0
    ensures InstanceId(line) == r <==>
      r <= MAX_INT64
      && exists prefix, digits, rest :: Routed(line, PREFIXES, prefix, digits, rest) && Value(digits) == r
  {
    ActualPrefixes(line);
    IdIff(line, PREFIXES, r);
  }

  lemma IdIff(line: string, prefixes: seq<string>, r: nat)
    requires r > 0 && OnePrefix(line, prefixes)
    ensures IdValue(IdText(line, prefixes)) == r <==>
      r <= MAX_INT64
      && exists prefix, digits, rest :: Routed(line, prefixes, prefix, digits, rest) && Value(digits) == r
  {
    if IdValue(IdText(line, prefixes)) == r { IdIsRouted(line, prefixes, r); }
    if r <= MAX_INT64
      && exists prefix, digits, rest :: Routed(line, prefixes, prefix, digits, rest) && Value(digits) == r
    {
      var prefix, digits, rest :| Routed(line, prefixes, prefix, digits, rest) && Value(digits) == r;
      RoutedId(line, prefixes, prefix, digits, rest);
    }
  }

  /** Printing a positive int64 in a line parses back to it. */
  lemma InstanceIdRoundTrip(prefix: string, r: nat, rest: string)
    requires prefix in PREFIXES && 0 < r <= MAX_INT64
    ensures InstanceId(prefix + Decimal(r) + [':'] + rest) == r
  {
    ActualPrefixes(prefix + Decimal(r) + [':'] + rest);
    RoutedId(prefix + Decimal(r) + [':'] + rest, PREFIXES, prefix, Decimal(r), rest);
  }
}
