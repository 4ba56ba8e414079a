/** Decimal numbers and separators in text. */
module Text {

  datatype Option<+T> = None | Some(value: T)

  predicate IsDigit(c: char) {
    '0' <= c <= '9'
  }

  predicate AllDigits(s: string) {
    forall i :: 0 <= i < |s| ==> IsDigit(s[i])
  }

  function DigitChar(d: nat): char
    requires d < 10
  {
    '0' + d as char
  }

  function DigitValue(c: char): nat
    requires IsDigit(c)
  {
    (c - '0') as nat
  }

  /** The number a run of digits denotes. */
  function Value(s: string): nat
    requires AllDigits(s)
  {
    if s == [] then 0 else 10 * Value(s[..|s| - 1]) + DigitValue(s[|s| - 1])
  }

  function DecimalNat(n: nat): (s: string)
    ensures s != [] && AllDigits(s) && Value(s) == n
  {
    if n < 10 then [DigitChar(n)]
    else
      var s := DecimalNat(n / 10) + [DigitChar(n % 10)];
      assert s[..|s| - 1] == DecimalNat(n / 10);
      s
  }

  /** `std::to_string` of a signed integer. */
  function Decimal(n: int): (s: string)
    ensures s != [] && (s[0] == '-' <==> n < 0)
    ensures forall c :: c in s ==> c == '-' || IsDigit(c)
  {
    if n < 0 then "-" + DecimalNat(-n) else DecimalNat(n)
  }

  lemma DecimalInjective(a: int, b: int)
    requires Decimal(a) == Decimal(b)
    ensures a == b
  {
    if a < 0 {
      assert Decimal(a)[1..] == DecimalNat(-a) && Decimal(b)[1..] == DecimalNat(-b);
    }
  }

  /** A separator that occurs in neither head splits a text in one way only. */
  lemma {:induction false} SplitUnique(a: string, x: string, b: string, y: string, sep: char)
    requires sep !in a && sep !in b
    requires a + [sep] + x == b + [sep] + y
    ensures a == b && x == y
  {
    var s := a + [sep] + x;
    assert s[|a|] == sep && s[|b|] == sep;
    assert a == s[..|a|] && b == s[..|b|];
    assert forall i :: 0 <= i < |a| ==> s[i] == a[i] && s[i] != sep;
    assert forall i :: 0 <= i < |b| ==> s[i] == b[i] && s[i] != sep;
    assert x == s[|a| + 1..] && y == s[|b| + 1..];
  }

  lemma Assoc<T>(a: seq<T>, b: seq<T>, c: seq<T>)
    ensures (a + b) + c == a + (b + c)
  {
  }

  // ---------- searching ----------

  /** `std::string::find` of one character. */
  function FindChar(s: string, c: char, from: nat): (r: Option<nat>)
    requires from <= |s|
    ensures r.Some? ==> from <= r.value < |s| && s[r.value] == c
    decreases |s| - from
  {
    if from == |s| then None
    else if s[from] == c then Some(from)
    else FindChar(s, c, from + 1)
  }

  /** The character found is the first one. */
  lemma {:induction false} FindCharFirst(s: string, c: char, from: nat)
    requires from <= |s|
    ensures var r := FindChar(s, c, from);
      c !in s[from..match r { case None => |s| case Some(k) => k }]
    decreases |s| - from
  {
    if from < |s| && s[from] != c {
      FindCharFirst(s, c, from + 1);
      var r := FindChar(s, c, from);
      var end := match r { case None => |s| case Some(k) => k };
      assert s[from..end] == [s[from]] + s[from + 1..end];
    }
  }

  predicate OccursAt(s: string, pattern: string, i: nat) {
    i + |pattern| <= |s| && s[i..i + |pattern|] == pattern
  }

  /** `std::string::find` of a text: its first occurrence. */
  function FindText(s: string, pattern: string, from: nat): (r: Option<nat>)
    requires from <= |s|
    ensures r.Some? ==> from <= r.value <= |s|
    decreases |s| - from
  {
    if OccursAt(s, pattern, from) then Some(from)
    else if from == |s| then None
    else FindText(s, pattern, from + 1)
  }

  /** The text found is there, and nowhere before. */
  lemma {:induction false} FindTextFirst(s: string, pattern: string, from: nat)
    requires from <= |s|
    ensures var r := FindText(s, pattern, from);
      && (r.Some? ==> OccursAt(s, pattern, r.value))
      && (forall i: nat :: from <= i && (r.Some? ==> i < r.value) ==> !OccursAt(s, pattern, i))
    decreases |s| - from
  {
    if !OccursAt(s, pattern, from) && from < |s| { FindTextFirst(s, pattern, from + 1); }
  }

  /** The first occurrence of a character, when it is known. */
  lemma {:induction false} FindCharAt(s: string, c: char, from: nat, at: nat)
    requires from <= at < |s| && s[at] == c && c !in s[from..at]
    ensures FindChar(s, c, from) == Some(at)
    decreases at - from
  {
    if from < at {
      assert s[from..at][0] == s[from];
      assert forall i :: from < i < at ==> s[i] == s[from..at][i - from];
      FindCharAt(s, c, from + 1, at);
    }
  }
}
