/** What the hand-written readers of JSON string lists have in common: the variables of their
    loops, and runs of one character after the other.  They differ in their step. */
module ListReader {
  import opened Text

  /** The strings read so far, the one being read, and flags. */
  datatype Scan = Scan(result: seq<string>, current: string, inString: bool, escapeNext: bool, done: bool)

  const START := Scan([], "", false, false, false)

  /** A reader keeps escapes as they are written (groups and messages), or drops their
      backslashes (conversations). */
  datatype Reader = Keeping | Dropping

  function Next(r: Reader, s: Scan, c: char): Scan {
    if s.done then s
    else if r == Keeping then NextKeeping(s, c)
    else NextDropping(s, c)
  }

  function NextKeeping(s: Scan, c: char): Scan {
    if s.escapeNext then s.(escapeNext := false, current := if s.inString then s.current + [c] else s.current)
    else if c == '\\' then s.(escapeNext := true, current := if s.inString then s.current + [c] else s.current)
    else if c == '"' then
      if s.inString && s.current != "" then s.(inString := false, result := s.result + [s.current], current := "")
      else s.(inString := !s.inString)
    else if s.inString then s.(current := s.current + [c])
    else if c == ']' then s.(done := true)
    else s
  }

  function NextDropping(s: Scan, c: char): Scan {
    if s.escapeNext then s.(escapeNext := false, current := s.current + [c])
    else if c == '\\' then s.(escapeNext := true)
    else if c == '"' then s.(inString := !s.inString)
    else if s.inString then s.(current := s.current + [c])
    else if c == ',' || c == ']' then
      s.(result := if s.current == "" then s.result else s.result + [s.current], current := "", done := c == ']')
    else s
  }

  function Run(r: Reader, s: Scan, t: string): Scan
    decreases |t|
  {
    if t == [] then s else Run(r, Next(r, s, t[0]), t[1..])
  }

  lemma {:induction false} RunConcat(r: Reader, s: Scan, a: string, b: string)
    ensures Run(r, s, a + b) == Run(r, Run(r, s, a), b)
    decreases |a|
  {
    if a == [] {
      assert a + b == b;
    } else {
      assert (a + b)[1..] == a[1..] + b;
      RunConcat(r, Next(r, s, a[0]), a[1..], b);
    }
  }

  lemma {:induction false} RunDone(r: Reader, s: Scan, t: string)
    requires s.done
    ensures Run(r, s, t) == s
  {
    if t != [] { RunDone(r, s, t[1..]); }
  }

  lemma RunStep(r: Reader, s: Scan, t: string, i: nat)
    requires i < |t|
    ensures Run(r, s, t[i..]) == Run(r, Next(r, s, t[i]), t[i + 1..])
  {
    assert t[i..][0] == t[i] && t[i..][1..] == t[i + 1..];
  }

  lemma RunOne(r: Reader, s: Scan, c: char)
    ensures Run(r, s, [c]) == Next(r, s, c)
  {
    assert [c][1..] == [];
  }

  ghost predicate Inside(s: Scan) {
    s.inString && !s.escapeNext && !s.done
  }

  ghost predicate Between(s: Scan) {
    !s.inString && !s.escapeNext && !s.done && s.current == ""
  }

  /** Inside a string, text without quotes and backslashes is taken as it is. */
  lemma {:induction false} RunPlain(r: Reader, s: Scan, t: string)
    requires Inside(s)
    requires forall i :: 0 <= i < |t| ==> t[i] != '"' && t[i] != '\\'
    ensures Run(r, s, t) == s.(current := s.current + t)
    decreases |t|
  {
    if t == [] {
      assert s.current + t == s.current;
    } else {
      RunPlain(r, Next(r, s, t[0]), t[1..]);
      assert s.current + [t[0]] + t[1..] == s.current + t;
    }
  }
}
