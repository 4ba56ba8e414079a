/** File names cut to a byte budget without splitting a UTF-8 character. */
module Utf8Filename {

  newtype byte = x: int | 0 <= x < 256

  const DOT: byte := 0x2E
  const MAX_FILENAME_BYTES: nat := 255

  // ---------- UTF-8 (RFC 3629, sections 3 and 4) ----------

  /** The two high bits are 10, as the mask 0xC0 tests. */
  predicate IsTail(b: byte) {
    0x80 <= b < 0xC0
  }

  /** The length of the well-formed character at the front of a text, or 0. */
  function CharLength(s: seq<byte>): (n: nat)
    ensures n <= 4 && n <= |s|
  {
    if |s| >= 1 && s[0] < 0x80 then 1
    else if |s| >= 2 && 0xC2 <= s[0] <= 0xDF && IsTail(s[1]) then 2
    else if |s| >= 3 && ThreeByteHead(s[0], s[1]) && IsTail(s[2]) then 3
    else if |s| >= 4 && FourByteHead(s[0], s[1]) && IsTail(s[2]) && IsTail(s[3]) then 4
    else 0
  }

  /** A character is one byte that is not a tail byte, then only tail bytes. */
  lemma CharLengthIs(s: seq<byte>)
    ensures var n := CharLength(s);
      n > 0 ==> !IsTail(s[0]) && forall i :: 0 < i < n ==> IsTail(s[i])
  {
  }

  predicate ThreeByteHead(a: byte, b: byte) {
    || (a == 0xE0 && 0xA0 <= b <= 0xBF)
    || ((0xE1 <= a <= 0xEC || 0xEE <= a <= 0xEF) && IsTail(b))
    || (a == 0xED && 0x80 <= b <= 0x9F)
  }

  predicate FourByteHead(a: byte, b: byte) {
    || (a == 0xF0 && 0x90 <= b <= 0xBF)
    || (0xF1 <= a <= 0xF3 && IsTail(b))
    || (a == 0xF4 && 0x80 <= b <= 0x8F)
  }

  /** A text of well-formed characters. */
  predicate Valid(s: seq<byte>) {
    s == [] || (CharLength(s) > 0 && Valid(s[CharLength(s)..]))
  }

  /** A position at which a text splits into two valid texts. */
  predicate IsBoundary(s: seq<byte>, k: nat) {
    k <= |s| && Valid(s[..k]) && Valid(s[k..])
  }

  // ---------- cutting ----------

  /** Step back over tail bytes. */
  function BackUp(value: seq<byte>, end: nat): (r: nat)
    requires end < |value|
    ensures r <= end
  {
    if end > 0 && IsTail(value[end]) then BackUp(value, end - 1) else end
  }

  /** It stops at the last position up to there that is not on a tail byte. */
  lemma {:induction false} BackUpIs(value: seq<byte>, end: nat)
    requires end < |value|
    ensures var r := BackUp(value, end);
      (r > 0 ==> !IsTail(value[r])) && forall i :: r < i <= end ==> IsTail(value[i])
  {
    if end > 0 && IsTail(value[end]) { BackUpIs(value, end - 1); }
  }

  function PrefixLength(value: seq<byte>, maxBytes: nat): (r: nat)
    ensures r <= |value| && r <= maxBytes
  {
    if |value| <= maxBytes then |value| else BackUp(value, maxBytes)
  }

  method Utf8PrefixLength(value: seq<byte>, maxBytes: nat) returns (end: nat)
    ensures end == PrefixLength(value, maxBytes)
  {
    if |value| <= maxBytes { return |value|; }
    end := maxBytes;
    while end > 0 && IsTail(value[end])
      invariant end <= maxBytes && BackUp(value, maxBytes) == BackUp(value, end)
    {
      end := end - 1;
    }
  }

  function Min(a: nat, b: nat): nat {
    if a < b then a else b
  }

  /** Position of the last dot. */
  function LastDot(s: seq<byte>): (r: int)
    ensures -1 <= r < |s|
  {
    LastDotBefore(s, |s|)
  }

  /** Position of the last dot before a given one. */
  function LastDotBefore(s: seq<byte>, end: nat): (r: int)
    requires end <= |s|
    ensures -1 <= r < end
  {
    if end == 0 then -1
    else if s[end - 1] == DOT then end - 1
    else LastDotBefore(s, end - 1)
  }

  lemma {:induction false} LastDotBeforeIs(s: seq<byte>, end: nat)
    requires end <= |s|
    ensures var r := LastDotBefore(s, end);
      (r >= 0 ==> s[r] == DOT) && forall i :: r < i < end ==> s[i] != DOT
  {
    if end != 0 && s[end - 1] != DOT { LastDotBeforeIs(s, end - 1); }
  }

  lemma LastDotIs(s: seq<byte>)
    ensures LastDot(s) >= 0 ==> s[LastDot(s)] == DOT
    ensures forall i :: LastDot(s) < i < |s| ==> s[i] != DOT
  {
    LastDotBeforeIs(s, |s|);
  }

  lemma LastDotIff(s: seq<byte>, k: int)
    requires -1 <= k < |s| && (k >= 0 ==> s[k] == DOT) && forall i :: k < i < |s| ==> s[i] != DOT
    ensures LastDot(s) == k
  {
    LastDotIs(s);
  }

  function Cut(value: seq<byte>, maxBytes: nat): seq<byte> {
    value[..PrefixLength(value, maxBytes)]
  }

  /** The part from the last dot on, or nothing. */
  function Extension(filename: seq<byte>): seq<byte> {
    if LastDot(filename) >= 0 then filename[LastDot(filename)..] else []
  }

  function Stem(filename: seq<byte>): seq<byte> {
    if LastDot(filename) >= 0 then filename[..LastDot(filename)] else filename
  }

  function Truncate(filename: seq<byte>, maxBytes: nat): seq<byte> {
    var budget := Min(maxBytes, MAX_FILENAME_BYTES);
    if |filename| <= budget then filename
    else if budget == 0 then []
    else if LastDot(filename) >= 0 && |Extension(filename)| <= budget then
      Cut(Stem(filename), budget - |Extension(filename)|) + Extension(filename)
    else Cut(filename, budget)
  }

  function ComposeStorageBasename(prefix: seq<byte>, filename: seq<byte>, maxBytes: nat): seq<byte> {
    var budget := Min(maxBytes, MAX_FILENAME_BYTES);
    if |prefix| >= budget then prefix[..budget] else prefix + Truncate(filename, budget - |prefix|)
  }

  // ---------- validity ----------

  lemma CharLengthOfConcat(a: seq<byte>, b: seq<byte>)
    requires CharLength(a) > 0
    ensures CharLength(a + b) == CharLength(a)
  {
    assert forall i :: 0 <= i < |a| ==> (a + b)[i] == a[i];
  }

  lemma DropConcat(a: seq<byte>, b: seq<byte>, n: nat)
    requires n <= |a|
    ensures (a + b)[n..] == a[n..] + b
  {
  }

  lemma {:induction false} ValidConcat(a: seq<byte>, b: seq<byte>)
    requires Valid(a) && Valid(b)
    ensures Valid(a + b)
    decreases |a|
  {
    if a == [] {
      assert a + b == b;
    } else {
      var n := CharLength(a);
      CharLengthOfConcat(a, b);
      ValidConcat(a[n..], b);
      DropConcat(a, b, n);
    }
  }

  /** In a valid text the boundaries are exactly the positions not on a tail byte. */
  lemma {:induction false} BoundaryIff(s: seq<byte>, k: nat)
    requires Valid(s) && k <= |s|
    ensures IsBoundary(s, k) <==> k == |s| || !IsTail(s[k])
    decreases |s|
  {
    if k == 0 {
      CharLengthIs(s);
      assert s[..0] == [] && s[0..] == s;
    } else {
      var n := CharLength(s);
      CharLengthIs(s);
      if k < n {
        CharLengthIs(s[k..]);
        assert s[k..][0] == s[k];
      } else {
        var rest := s[n..];
        BoundaryIff(rest, k - n);
        assert rest[k - n..] == s[k..];
        assert k < |s| ==> rest[k - n] == s[k];
        assert s[..k] == s[..n] + rest[..k - n];
        if IsBoundary(rest, k - n) {
          assert CharLength(s[..n]) == n && s[..n][n..] == [];
          ValidConcat(s[..n], rest[..k - n]);
        }
      }
    }
  }

  /** A valid text has no four tail bytes in a row. */
  lemma {:induction false} TailRuns(s: seq<byte>, k: nat)
    requires Valid(s) && k + 3 < |s|
    ensures !IsTail(s[k]) || !IsTail(s[k + 1]) || !IsTail(s[k + 2]) || !IsTail(s[k + 3])
    decreases |s|
  {
    var n := CharLength(s);
    CharLengthIs(s);
    if k >= n {
      var rest := s[n..];
      TailRuns(rest, k - n);
      assert rest[k - n] == s[k] && rest[k - n + 1] == s[k + 1];
      assert rest[k - n + 2] == s[k + 2] && rest[k - n + 3] == s[k + 3];
    } else if k > 0 && n < |s| {
      CharLengthIs(s[n..]);
      assert s[n..][0] == s[n];
    }
  }

  /** Cutting a valid text gives the largest boundary within the budget, at most three
      bytes below it. */
  lemma CutIsLargestBoundary(value: seq<byte>, maxBytes: nat)
    requires Valid(value)
    ensures var r := PrefixLength(value, maxBytes);
      && IsBoundary(value, r)
      && (forall k :: r < k <= maxBytes && k <= |value| ==> !IsBoundary(value, k))
      && (|value| > maxBytes ==> r + 3 >= maxBytes)
  {
    var r := PrefixLength(value, maxBytes);
    if maxBytes < |value| { BackUpIs(value, maxBytes); }
    assert r < |value| && r == 0 ==> value[..0] == [];
    if value != [] && r == 0 { CharLengthIs(value); }
    BoundaryIff(value, r);
    forall k | r < k <= maxBytes && k <= |value| ensures !IsBoundary(value, k) {
      BoundaryIff(value, k);
    }
    if |value| > maxBytes && r + 3 < maxBytes {
      TailRuns(value, r + 1);
    }
  }

  /** A dot is a whole character, so it splits a valid name into valid parts. */
  lemma PartsAreValid(filename: seq<byte>)
    requires Valid(filename)
    ensures Valid(Stem(filename)) && Valid(Extension(filename))
    ensures filename == Stem(filename) + Extension(filename)
  {
    hide CharLength, LastDotBefore;
    var k := LastDot(filename);
    if k >= 0 {
      LastDotIs(filename);
      BoundaryIff(filename, k);
      assert filename == filename[..k] + filename[k..];
    } else {
      assert filename == filename + [];
    }
  }

  lemma CutStem(stem: seq<byte>, ext: seq<byte>, budget: nat)
    requires Valid(stem) && Valid(ext) && |ext| <= budget < |stem| + |ext|
    ensures var r := Cut(stem, budget - |ext|) + ext;
      Valid(r) && budget <= |r| + 3 && |r| <= budget && r[|r| - |ext|..] == ext
  {
    hide BackUp, CharLength;
    CutIsLargestBoundary(stem, budget - |ext|);
    ValidConcat(Cut(stem, budget - |ext|), ext);
  }

  /** What truncation returns, case by case. */
  ghost predicate IsTruncation(f: seq<byte>, budget: nat, r: seq<byte>) {
    if |f| <= budget then r == f
    else if budget == 0 then r == []
    else if LastDot(f) >= 0 && |Extension(f)| <= budget then r == Cut(Stem(f), budget - |Extension(f)|) + Extension(f)
    else r == Cut(f, budget)
  }

  lemma TruncateCases(f: seq<byte>, maxBytes: nat)
    ensures IsTruncation(f, Min(maxBytes, MAX_FILENAME_BYTES), Truncate(f, maxBytes))
  {
  }

  ghost predicate Sound(f: seq<byte>, budget: nat, r: seq<byte>) {
    Valid(r) && |r| <= budget && (if |f| <= budget then r == f else |r| + 3 >= budget)
  }

  lemma TruncationIsSound(f: seq<byte>, budget: nat, r: seq<byte>)
    requires Valid(f) && IsTruncation(f, budget, r)
    ensures Sound(f, budget, r)
  {
    if |f| > budget > 0 {
      if LastDot(f) >= 0 && |Extension(f)| <= budget {
        StemCutIsSound(f, budget, r);
      } else {
        CutIsLargestBoundary(f, budget);
      }
    }
  }

  lemma StemCutIsSound(f: seq<byte>, budget: nat, r: seq<byte>)
    requires Valid(f) && |Extension(f)| <= budget < |f|
    requires r == Cut(Stem(f), budget - |Extension(f)|) + Extension(f)
    ensures Sound(f, budget, r)
  {
    hide *;
    PartsAreValid(f);
    JoinedCutIsSound(Stem(f), Extension(f), budget);
  }

  lemma JoinedCutIsSound(stem: seq<byte>, ext: seq<byte>, budget: nat)
    requires Valid(stem) && Valid(ext) && |ext| <= budget < |stem + ext|
    ensures Sound(stem + ext, budget, Cut(stem, budget - |ext|) + ext)
  {
    assert |stem + ext| == |stem| + |ext|;
    CutStem(stem, ext, budget);
  }

  /** Truncating a valid name gives a valid name within the budget, at most three bytes
      below it when anything was cut. */
  lemma TruncateIsSound(filename: seq<byte>, maxBytes: nat)
    requires Valid(filename)
    ensures Sound(filename, Min(maxBytes, MAX_FILENAME_BYTES), Truncate(filename, maxBytes))
  {
    TruncateCases(filename, maxBytes);
    TruncationIsSound(filename, Min(maxBytes, MAX_FILENAME_BYTES), Truncate(filename, maxBytes));
  }

  /** When the extension fits, truncation cuts the stem. */
  lemma StemTruncation(f: seq<byte>, budget: nat, r: seq<byte>)
    requires LastDot(f) >= 0 && |Extension(f)| <= budget && IsTruncation(f, budget, r)
    ensures r == Cut(Stem(f), budget - |Extension(f)|) + Extension(f)
  {
    assert f == Stem(f) + Extension(f);
    ShortCut(Stem(f), budget - |Extension(f)|);
  }

  lemma ShortCut(value: seq<byte>, maxBytes: nat)
    ensures maxBytes == 0 ==> Cut(value, maxBytes) == []
    ensures |value| <= maxBytes ==> Cut(value, maxBytes) == value
  {
  }

  /** A name that ends in an extension after the start of a stem. */
  ghost predicate EndsIn(r: seq<byte>, stem: seq<byte>, ext: seq<byte>) {
    |ext| <= |r| && r[|r| - |ext|..] == ext && r[..|r| - |ext|] <= stem
  }

  lemma CutEndsIn(stem: seq<byte>, ext: seq<byte>, n: nat)
    ensures EndsIn(Cut(stem, n) + ext, stem, ext)
  {
    var r := Cut(stem, n) + ext;
    assert r[|r| - |ext|..] == ext && r[..|r| - |ext|] == Cut(stem, n);
  }

  /** The extension is kept whole whenever it fits, and then only the stem is cut; without
      room for it the name is cut as a whole. */
  lemma TruncateKeepsExtension(filename: seq<byte>, maxBytes: nat)
    requires LastDot(filename) >= 0
    ensures var budget, r := Min(maxBytes, MAX_FILENAME_BYTES), Truncate(filename, maxBytes);
      if |Extension(filename)| <= budget then EndsIn(r, Stem(filename), Extension(filename)) else r <= filename
  {
    var budget := Min(maxBytes, MAX_FILENAME_BYTES);
    TruncateCases(filename, maxBytes);
    if |Extension(filename)| <= budget {
      StemTruncation(filename, budget, Truncate(filename, maxBytes));
      CutEndsIn(Stem(filename), Extension(filename), budget - |Extension(filename)|);
    }
  }

  // ---------- composition ----------

  /** Cutting twice is cutting once, for any bytes. */
  lemma CutTwice(value: seq<byte>, m: nat, n: nat)
    requires n <= m
    ensures Cut(Cut(value, m), n) == Cut(value, n)
  {
    if |value| > m {
      var r := BackUp(value, m);
      var once := value[..r];
      if r > n {
        BackUpAgrees(value, once, n);
        assert once[..BackUp(value, n)] == value[..BackUp(value, n)];
      } else {
        BackUpThrough(value, m, n);
        assert once[..r] == once;
      }
    } else {
      ShortCut(value, m);
    }
  }

  lemma {:induction false} BackUpAgrees(a: seq<byte>, b: seq<byte>, end: nat)
    requires end < |a| && end < |b| && forall i :: 0 <= i <= end ==> a[i] == b[i]
    ensures BackUp(a, end) == BackUp(b, end)
  {
    if end > 0 && IsTail(a[end]) { BackUpAgrees(a, b, end - 1); }
  }

  /** Backing up from in between ends at the same place. */
  lemma {:induction false} BackUpThrough(value: seq<byte>, from: nat, between: nat)
    requires from < |value| && BackUp(value, from) <= between <= from
    ensures BackUp(value, between) == BackUp(value, from)
    decreases from
  {
    if between < from { BackUpThrough(value, from - 1, between); }
  }

  /** A cut stem keeps the name's last dot where the extension starts. */
  lemma LastDotOfParts(stem: seq<byte>, ext: seq<byte>)
    requires ext != [] && ext[0] == DOT && forall i :: 0 < i < |ext| ==> ext[i] != DOT
    ensures LastDot(stem + ext) == |stem|
    ensures Stem(stem + ext) == stem && Extension(stem + ext) == ext
  {
    var f := stem + ext;
    assert f[|stem|] == DOT;
    assert forall i :: |stem| < i < |f| ==> f[i] == ext[i - |stem|];
    LastDotIff(f, |stem|);
    assert f[..|stem|] == stem && f[|stem|..] == ext;
  }

  /** A prefix of a text without dots has none. */
  lemma NoDotInPrefix(f: seq<byte>, k: nat)
    requires LastDot(f) < 0 && k <= |f|
    ensures LastDot(f[..k]) < 0
  {
    LastDotIs(f);
    LastDotIff(f[..k], -1);
  }

  lemma NoDotTruncation(f: seq<byte>, budget: nat, r: seq<byte>)
    requires LastDot(f) < 0 && IsTruncation(f, budget, r)
    ensures r == Cut(f, budget)
  {
    ShortCut(f, budget);
  }

  lemma NoDotComposes(f: seq<byte>, m: nat, n: nat, once: seq<byte>, twice: seq<byte>, direct: seq<byte>)
    requires n <= m && LastDot(f) < 0
    requires IsTruncation(f, m, once) && IsTruncation(once, n, twice) && IsTruncation(f, n, direct)
    ensures twice == direct
  {
    NoDotTruncation(f, m, once);
    NoDotInPrefix(f, PrefixLength(f, m));
    NoDotTruncation(once, n, twice);
    NoDotTruncation(f, n, direct);
    CutTwice(f, m, n);
  }

  lemma ExtensionShape(f: seq<byte>)
    requires LastDot(f) >= 0
    ensures var ext := Extension(f); ext != [] && ext[0] == DOT && forall i :: 0 < i < |ext| ==> ext[i] != DOT
  {
    LastDotIs(f);
  }

  /** When the extension fits, the stem is cut. */
  lemma TruncateStem(f: seq<byte>, maxBytes: nat)
    requires LastDot(f) >= 0 && |Extension(f)| <= maxBytes <= MAX_FILENAME_BYTES
    ensures Truncate(f, maxBytes) == Cut(Stem(f), maxBytes - |Extension(f)|) + Extension(f)
  {
    TruncateCases(f, maxBytes);
    StemTruncation(f, maxBytes, Truncate(f, maxBytes));
  }

  lemma TruncateStemOf(stem: seq<byte>, ext: seq<byte>, maxBytes: nat)
    requires ext != [] && ext[0] == DOT && forall i :: 0 < i < |ext| ==> ext[i] != DOT
    requires |ext| <= maxBytes <= MAX_FILENAME_BYTES
    ensures Truncate(stem + ext, maxBytes) == Cut(stem, maxBytes - |ext|) + ext
  {
    LastDotOfParts(stem, ext);
    TruncateStem(stem + ext, maxBytes);
  }

  lemma JoinedComposes(stem: seq<byte>, ext: seq<byte>, m: nat, n: nat, once: seq<byte>)
    requires ext != [] && ext[0] == DOT && forall i :: 0 < i < |ext| ==> ext[i] != DOT
    requires |ext| <= n <= m <= MAX_FILENAME_BYTES && once == Cut(stem, m - |ext|) + ext
    ensures Truncate(once, n) == Cut(stem, n - |ext|) + ext
  {
    TruncateStemOf(Cut(stem, m - |ext|), ext, n);
    CutTwice(stem, m - |ext|, n - |ext|);
  }

  lemma TruncateTwice(stem: seq<byte>, ext: seq<byte>, m: nat, n: nat, f: seq<byte>)
    requires ext != [] && ext[0] == DOT && forall i :: 0 < i < |ext| ==> ext[i] != DOT
    requires |ext| <= n <= m <= MAX_FILENAME_BYTES && f == stem + ext
    ensures Truncate(Truncate(f, m), n) == Truncate(f, n)
  {
    TruncateStemOf(stem, ext, m);
    TruncateStemOf(stem, ext, n);
    JoinedComposes(stem, ext, m, n, Truncate(f, m));
  }

  lemma ExtensionComposes(f: seq<byte>, m: nat, n: nat)
    requires LastDot(f) >= 0 && |Extension(f)| <= n <= m <= MAX_FILENAME_BYTES
    ensures Truncate(Truncate(f, m), n) == Truncate(f, n)
  {
    ExtensionShape(f);
    TruncateTwice(Stem(f), Extension(f), m, n, f);
  }

  /** Truncating to m and then to n is truncating to n, when the name has no dot or its
      extension fits in n. */
  lemma TruncateComposes(filename: seq<byte>, m: nat, n: nat)
    requires n <= m
    requires LastDot(filename) < 0 || |Extension(filename)| <= n
    ensures Truncate(Truncate(filename, m), n) == Truncate(filename, n)
  {
    var bm, bn := Min(m, MAX_FILENAME_BYTES), Min(n, MAX_FILENAME_BYTES);
    BudgetOnly(filename, m);
    BudgetOnly(filename, n);
    BudgetOnly(Truncate(filename, m), n);
    BudgetOnly(Truncate(filename, bm), n);
    if LastDot(filename) < 0 {
      NoDotAtAll(filename, bm, bn);
    } else if |Extension(filename)| <= bn {
      ExtensionComposes(filename, bm, bn);
    }
  }

  lemma NoDotAtAll(f: seq<byte>, m: nat, n: nat)
    requires n <= m <= MAX_FILENAME_BYTES && LastDot(f) < 0
    ensures Truncate(Truncate(f, m), n) == Truncate(f, n)
  {
    TruncateCases(f, m);
    TruncateCases(f, n);
    TruncateCases(Truncate(f, m), n);
    NoDotComposes(f, m, n, Truncate(f, m), Truncate(Truncate(f, m), n), Truncate(f, n));
  }

  /** Only the capped budget matters. */
  lemma BudgetOnly(filename: seq<byte>, maxBytes: nat)
    ensures Truncate(filename, maxBytes) == Truncate(filename, Min(maxBytes, MAX_FILENAME_BYTES))
    ensures |Truncate(filename, maxBytes)| <= Min(maxBytes, MAX_FILENAME_BYTES)
  {
    hide BackUp, LastDotBefore;
  }

  /** How much of the stem stays when the extension is kept. */
  function KeptStem(f: seq<byte>, budget: nat): (c: nat)
    requires LastDot(f) >= 0 && |Extension(f)| <= budget
    ensures c <= budget - |Extension(f)| && c <= LastDot(f)
  {
    PrefixLength(Stem(f), budget - |Extension(f)|)
  }

  /** The stem kept beside the extension in m fills n, or goes on as the extension does. */
  predicate KeptStemServes(f: seq<byte>, m: nat, n: nat)
    requires LastDot(f) >= 0 && |Extension(f)| <= m
  {
    var c := KeptStem(f, m);
    c >= n || Cut(f[c..], n - c) == Cut(Extension(f), n - c)
  }

  /** A name fits, has no extension that fits, or loses nothing else by keeping it. */
  predicate ExtensionServes(g: seq<byte>, n: nat) {
    |g| <= n || LastDot(g) < 0 || |Extension(g)| > n
    || Cut(g[KeptStem(g, n)..], n - KeptStem(g, n)) == Extension(g)
  }

  /** When truncating to m first makes no difference to truncating to n: the name fits in m,
      or has no dot, or its extension fits in n; or, if the extension fits in m only, the
      kept stem serves; or, if it fits in neither, what the name cut to m has for an
      extension serves. */
  predicate FirstCutHarmless(f: seq<byte>, m: nat, n: nat) {
    if |f| <= m || LastDot(f) < 0 || |Extension(f)| <= n then true
    else if |Extension(f)| <= m then KeptStemServes(f, m, n)
    else ExtensionServes(Cut(f, m), n)
  }

  /** A cut beyond a character's first byte leaves everything before it. */
  lemma {:induction false} BackUpPast(value: seq<byte>, end: nat, c: nat)
    requires c <= end < |value| && (c == 0 || !IsTail(value[c]))
    ensures BackUp(value, end) == c + BackUp(value[c..], end - c)
    decreases end
  {
    assert value[c..][end - c] == value[end];
    if c < end && IsTail(value[end]) { BackUpPast(value, end - 1, c); }
  }

  lemma CutPast(value: seq<byte>, n: nat, c: nat)
    requires c <= n && c < |value| && (c == 0 || !IsTail(value[c]))
    ensures Cut(value, n) == value[..c] + Cut(value[c..], n - c)
  {
    if n < |value| { BackUpPast(value, n, c); }
  }

  /** The kept part of a stem that does not fit ends before a character. */
  lemma KeptStemStops(f: seq<byte>, budget: nat)
    requires LastDot(f) >= 0 && |Extension(f)| <= budget < |f|
    ensures var c := KeptStem(f, budget);
      c < LastDot(f) && (c == 0 || !IsTail(f[c])) && Cut(Stem(f), budget - |Extension(f)|) == f[..c]
  {
    assert |Stem(f)| + |Extension(f)| == |f|;
    BackUpIs(Stem(f), budget - |Extension(f)|);
  }

  /** Cutting a name whose stem was already cut: the cut falls within what was kept, or into
      the extension. */
  lemma CutOfShortened(f: seq<byte>, c: nat, ext: seq<byte>, n: nat)
    requires c < |f| && (c == 0 || !IsTail(f[c])) && ext != [] && !IsTail(ext[0])
    ensures Cut(f[..c] + ext, n) == Cut(f, n) <==> c >= n || Cut(f[c..], n - c) == Cut(ext, n - c)
  {
    var once := f[..c] + ext;
    assert once[..c] == f[..c] && once[c..] == ext && once[c] == ext[0];
    if c >= n {
      CutWithin(f, n, c);
      CutWithin(once, n, c);
    } else {
      CutPast(once, n, c);
      CutPast(f, n, c);
      SameHead(f[..c], Cut(ext, n - c), Cut(f[c..], n - c));
    }
  }

  /** The extension fits in m only. */
  lemma SecondCutLosesExtension(f: seq<byte>, m: nat, n: nat)
    requires LastDot(f) >= 0 && n < |Extension(f)| <= m < |f|
    ensures Cut(Cut(Stem(f), m - |Extension(f)|) + Extension(f), n) == Cut(f, n) <==> KeptStemServes(f, m, n)
  {
    var c := KeptStem(f, m);
    KeptStemStops(f, m);
    ExtensionShape(f);
    CutOfShortened(f, c, Extension(f), n);
  }

  lemma SameHead(head: seq<byte>, a: seq<byte>, b: seq<byte>)
    ensures head + a == head + b <==> a == b
  {
    assert (head + a)[|head|..] == a && (head + b)[|head|..] == b;
  }

  /** A cut before a character boundary does not see what follows it. */
  lemma CutWithin(value: seq<byte>, n: nat, c: nat)
    requires n <= c < |value| && (c == 0 || !IsTail(value[c]))
    ensures Cut(value, n) == Cut(value[..c], n)
  {
    if n < c { BackUpAgrees(value, value[..c], n); }
  }

  /** A truncation is a plain cut exactly when the extension serves. */
  lemma TruncationIsCutIff(g: seq<byte>, n: nat, r: seq<byte>)
    requires IsTruncation(g, n, r)
    ensures r == Cut(g, n) <==> ExtensionServes(g, n)
  {
    ShortCut(g, n);
    if |g| > n && LastDot(g) >= 0 && |Extension(g)| <= n {
      KeepingExtensionIff(g, n);
    }
  }

  /** Keeping the extension gives what plain cutting gives. */
  lemma KeepingExtensionIff(g: seq<byte>, n: nat)
    requires LastDot(g) >= 0 && |Extension(g)| <= n < |g|
    ensures Cut(Stem(g), n - |Extension(g)|) + Extension(g) == Cut(g, n)
      <==> Cut(g[KeptStem(g, n)..], n - KeptStem(g, n)) == Extension(g)
  {
    JoinedKeepingIff(g, Stem(g), Extension(g), KeptStem(g, n), n);
  }

  lemma JoinedKeepingIff(g: seq<byte>, stem: seq<byte>, ext: seq<byte>, c: nat, n: nat)
    requires g == stem + ext && |ext| <= n < |g| && c == PrefixLength(stem, n - |ext|)
    ensures Cut(stem, n - |ext|) + ext == Cut(g, n) <==> Cut(g[c..], n - c) == ext
  {
    BackUpIs(stem, n - |ext|);
    assert g[c] == stem[c] && g[..c] == stem[..c];
    OtherEnd(g, n, c, ext);
  }

  lemma OtherEnd(g: seq<byte>, n: nat, c: nat, end: seq<byte>)
    requires c <= n && c < |g| && (c == 0 || !IsTail(g[c]))
    ensures g[..c] + end == Cut(g, n) <==> Cut(g[c..], n - c) == end
  {
    CutPast(g, n, c);
    SameHead(g[..c], end, Cut(g[c..], n - c));
  }

  /** The exact condition, for any bytes. */
  lemma TruncateComposesIff(filename: seq<byte>, m: nat, n: nat)
    requires n <= m
    ensures Truncate(Truncate(filename, m), n) == Truncate(filename, n)
      <==> FirstCutHarmless(filename, Min(m, MAX_FILENAME_BYTES), Min(n, MAX_FILENAME_BYTES))
  {
    var bm, bn := Min(m, MAX_FILENAME_BYTES), Min(n, MAX_FILENAME_BYTES);
    var once := Truncate(filename, m);
    BudgetOnly(filename, n);
    BudgetOnly(once, n);
    BudgetOnly(filename, m);
    if LastDot(filename) < 0 || |Extension(filename)| <= bn {
      TruncateComposes(filename, bm, bn);
    } else if |filename| > bm {
      LongExtensionIff(filename, bm, bn, once, Truncate(once, n), Truncate(filename, n));
    }
  }

  lemma LongExtensionIff(f: seq<byte>, m: nat, n: nat, once: seq<byte>, twice: seq<byte>, direct: seq<byte>)
    requires n <= m < |f| && LastDot(f) >= 0 && |Extension(f)| > n
    requires IsTruncation(f, m, once) && IsTruncation(once, n, twice) && IsTruncation(f, n, direct)
    ensures twice == direct <==> FirstCutHarmless(f, m, n)
  {
    ShortCut(f, n);
    ShortCut(f, m);
    if |Extension(f)| <= m {
      ExtensionShape(f);
      LastDotOfParts(Cut(Stem(f), m - |Extension(f)|), Extension(f));
      ShortCut(once, n);
      SecondCutLosesExtension(f, m, n);
    } else {
      CutTwice(f, m, n);
      TruncationIsCutIff(once, n, twice);
    }
  }

  /** A valid name with one dot, whose extension does not fit in n: truncating to m first is
      harmless exactly when the stem kept in m still fills n, or the name cut to m either
      fits in n, ends before the dot, or ends in more than n bytes of the extension. */
  predicate OneDotHarmless(f: seq<byte>, m: nat, n: nat)
    requires LastDot(f) >= 0
  {
    if |Extension(f)| <= m then KeptStem(f, m) >= n
    else PrefixLength(f, m) <= n || PrefixLength(f, m) <= LastDot(f) || PrefixLength(f, m) > LastDot(f) + n
  }

  lemma OneDotComposesIff(filename: seq<byte>, m: nat, n: nat)
    requires Valid(filename) && n <= m
    requires var bm, bn := Min(m, MAX_FILENAME_BYTES), Min(n, MAX_FILENAME_BYTES);
      LastDot(filename) >= 0 && LastDot(Stem(filename)) < 0 && bn < |Extension(filename)| && bm < |filename|
    ensures Truncate(Truncate(filename, m), n) == Truncate(filename, n)
      <==> OneDotHarmless(filename, Min(m, MAX_FILENAME_BYTES), Min(n, MAX_FILENAME_BYTES))
  {
    var bm, bn := Min(m, MAX_FILENAME_BYTES), Min(n, MAX_FILENAME_BYTES);
    TruncateComposesIff(filename, m, n);
    if |Extension(filename)| <= bm {
      PartsAreValid(filename);
      ExtensionShape(filename);
      ValidStartsWithDot(Extension(filename));
      OneDotLost(filename, bm, bn);
    } else {
      OneDotFound(filename, bm, bn);
    }
  }

  /** A cut text starts as the text does. */
  lemma StartsDiffer(rest: seq<byte>, k: nat, e: seq<byte>)
    requires rest != [] && e != [] && rest[0] != e[0]
    ensures Cut(rest, k) != e
  {
    assert Cut(rest, k) != [] ==> Cut(rest, k)[0] == rest[0];
  }

  predicate StartsWithDot(ext: seq<byte>) {
    ext != [] && ext[0] == DOT && (|ext| > 1 ==> !IsTail(ext[1]))
  }

  lemma OneDotLost(f: seq<byte>, m: nat, n: nat)
    requires LastDot(f) >= 0 && LastDot(Stem(f)) < 0 && n < |Extension(f)| <= m < |f|
    requires StartsWithDot(Extension(f))
    ensures KeptStemServes(f, m, n) <==> KeptStem(f, m) >= n
  {
    var c := KeptStem(f, m);
    if c < n {
      NoDotAtKept(f, m);
      GoesOnDifferently(f[c..], Extension(f), n - c);
    }
  }

  lemma NoDotAtKept(f: seq<byte>, m: nat)
    requires LastDot(f) >= 0 && LastDot(Stem(f)) < 0 && |Extension(f)| <= m < |f|
    ensures KeptStem(f, m) < |f| && f[KeptStem(f, m)] != DOT
  {
    KeptStemStops(f, m);
    LastDotIs(Stem(f));
    assert Stem(f)[KeptStem(f, m)] == f[KeptStem(f, m)];
  }

  lemma GoesOnDifferently(rest: seq<byte>, ext: seq<byte>, k: nat)
    requires StartsWithDot(ext) && k > 0 && rest != [] && rest[0] != DOT
    ensures Cut(rest, k) != Cut(ext, k)
  {
    if k < |ext| { BackUpStops(ext, k); }
    StartsDiffer(rest, k, Cut(ext, k));
  }

  lemma {:induction false} BackUpStops(value: seq<byte>, end: nat)
    requires 1 <= end < |value| && !IsTail(value[1])
    ensures BackUp(value, end) >= 1
  {
    if end > 1 && IsTail(value[end]) { BackUpStops(value, end - 1); }
  }

  lemma ValidStartsWithDot(ext: seq<byte>)
    requires Valid(ext) && ext != [] && ext[0] == DOT
    ensures StartsWithDot(ext)
  {
    assert CharLength(ext) == 1;
    if |ext| > 1 {
      CharLengthIs(ext[1..]);
      assert ext[1..][0] == ext[1];
    }
  }

  lemma OneDotFound(f: seq<byte>, m: nat, n: nat)
    requires LastDot(f) >= 0 && LastDot(Stem(f)) < 0 && n <= m < |Extension(f)|
    ensures ExtensionServes(Cut(f, m), n) <==> OneDotHarmless(f, m, n)
  {
    var g, d := Cut(f, m), LastDot(f);
    if |g| > d {
      LastDotInPrefix(f, |g|);
      if |g| > n && |Extension(g)| <= n {
        var c := KeptStem(g, n);
        NoDotAtKept(g, n);
        ExtensionShape(g);
        StartsDiffer(g[c..], n - c, Extension(g));
      }
    } else {
      assert g == Stem(f)[..|g|];
      NoDotInPrefix(Stem(f), |g|);
    }
  }

  lemma LastDotInPrefix(f: seq<byte>, k: nat)
    requires 0 <= LastDot(f) < k <= |f|
    ensures LastDot(f[..k]) == LastDot(f) && Stem(f[..k]) == Stem(f)
  {
    LastDotIs(f);
    LastDotIff(f[..k], LastDot(f));
  }

  /** Without that condition composition fails: the extension of "a.bc" fits in 3 bytes
      and not in 2. */
  lemma TruncateDoesNotAlwaysCompose()
    ensures exists f: seq<byte> :: Truncate(Truncate(f, 3), 2) != Truncate(f, 2)
  {
    var f: seq<byte> := [0x61, DOT, 0x62, 0x63];
    assert f[..3][..2] == f[..2] && f[..2][|f[..2]| - 1] == DOT;
    LastDotIff(f, 1);
    LastDotIff([DOT, 0x62, 0x63], 0);
    assert Truncate(f, 3) == [DOT, 0x62, 0x63];
    assert Truncate(f, 2)[0] == 0x61;
    assert Truncate([DOT, 0x62, 0x63], 2)[0] == DOT;
  }

  // ---------- storage names ----------

  /** A storage name stays within the budget and starts with as much of the prefix as fits. */
  lemma ComposeIsSound(prefix: seq<byte>, filename: seq<byte>, maxBytes: nat)
    requires Valid(prefix) && Valid(filename)
    ensures SoundlyPrefixed(prefix, Min(maxBytes, MAX_FILENAME_BYTES),
                            ComposeStorageBasename(prefix, filename, maxBytes))
  {
    hide Truncate, Valid;
    var budget := Min(maxBytes, MAX_FILENAME_BYTES);
    if |prefix| < budget { RestIsSound(prefix, filename, budget); }
  }

  ghost predicate SoundlyPrefixed(prefix: seq<byte>, budget: nat, r: seq<byte>) {
    && |r| <= budget
    && (if |prefix| >= budget then r <= prefix && |r| == budget else prefix <= r && Valid(r))
  }

  lemma RestIsSound(prefix: seq<byte>, filename: seq<byte>, budget: nat)
    requires Valid(prefix) && Valid(filename) && |prefix| < budget <= MAX_FILENAME_BYTES
    ensures SoundlyPrefixed(prefix, budget, prefix + Truncate(filename, budget - |prefix|))
  {
    hide Truncate, Valid;
    TruncateIsSound(filename, budget - |prefix|);
    PrefixedIsSound(prefix, budget, Truncate(filename, budget - |prefix|));
  }

  lemma PrefixedIsSound(prefix: seq<byte>, budget: nat, rest: seq<byte>)
    requires Valid(prefix) && Valid(rest) && |prefix| + |rest| <= budget
    ensures |prefix| < budget ==> SoundlyPrefixed(prefix, budget, prefix + rest)
  {
    ValidConcat(prefix, rest);
  }

  /** The longest valid beginning of a text within a number of bytes. */
  ghost predicate IsLongestCut(f: seq<byte>, k: nat, c: nat) {
    && c <= k && IsBoundary(f, c)
    && forall b :: c < b <= k && b <= |f| ==> !IsBoundary(f, b)
  }

  /** The longest valid beginning of a text, and an end. */
  ghost predicate BeginsLongest(f: seq<byte>, k: nat, end: seq<byte>, rest: seq<byte>) {
    |end| <= |rest| && IsLongestCut(f, k, |rest| - |end|) && rest == f[..|rest| - |end|] + end
  }

  /** A name made shorter: the longest valid beginning of its stem and its whole extension when
      that fits, and otherwise the longest valid beginning of the name. */
  ghost predicate IsShortened(f: seq<byte>, k: nat, rest: seq<byte>) {
    if LastDot(f) >= 0 && |Extension(f)| <= k then BeginsLongest(Stem(f), k - |Extension(f)|, Extension(f), rest)
    else BeginsLongest(f, k, [], rest)
  }

  lemma CutBeginsLongest(f: seq<byte>, k: nat, end: seq<byte>)
    requires Valid(f)
    ensures BeginsLongest(f, k, end, Cut(f, k) + end)
  {
    CutIsLargestBoundary(f, k);
    assert |Cut(f, k) + end| - |end| == PrefixLength(f, k);
  }

  lemma TruncateWhole(f: seq<byte>, k: nat)
    requires 0 < k < |f| && k <= MAX_FILENAME_BYTES && (LastDot(f) < 0 || |Extension(f)| > k)
    ensures Truncate(f, k) == Cut(f, k) + []
  {
    TruncateCases(f, k);
  }

  /** Truncating shortens no more than it has to. */
  lemma TruncateIsShortened(f: seq<byte>, k: nat)
    requires Valid(f) && 0 < k < |f| && k <= MAX_FILENAME_BYTES
    ensures IsShortened(f, k, Truncate(f, k))
  {
    if LastDot(f) >= 0 && |Extension(f)| <= k {
      StemIsShortened(f, k, Truncate(f, k));
    } else {
      TruncateWhole(f, k);
      CutBeginsLongest(f, k, []);
    }
  }

  lemma StemIsShortened(f: seq<byte>, k: nat, r: seq<byte>)
    requires Valid(f) && LastDot(f) >= 0 && |Extension(f)| <= k <= MAX_FILENAME_BYTES && r == Truncate(f, k)
    ensures BeginsLongest(Stem(f), k - |Extension(f)|, Extension(f), r)
  {
    hide *;
    TruncateStem(f, k);
    PartsAreValid(f);
    CutBeginsLongest(Stem(f), k - |Extension(f)|, Extension(f));
  }

  /** A name that fits behind the prefix is there unchanged; one that does not is shortened to
      the remaining budget, within three bytes of it. */
  lemma ComposeKeepsName(prefix: seq<byte>, filename: seq<byte>, maxBytes: nat)
    ensures var budget, r := Min(maxBytes, MAX_FILENAME_BYTES), ComposeStorageBasename(prefix, filename, maxBytes);
      && (|prefix| + |filename| <= budget ==> r == prefix + filename)
      && (Valid(filename) && |prefix| < budget < |prefix| + |filename| ==>
            ShortenedBehind(prefix, filename, budget - |prefix|, r))
  {
    hide Truncate, Valid, IsShortened, ShortenedBehind;
    var budget := Min(maxBytes, MAX_FILENAME_BYTES);
    if |prefix| + |filename| <= budget { ComposeFits(prefix, filename, maxBytes); }
    if Valid(filename) && |prefix| < budget < |prefix| + |filename| {
      RestIsShortened(prefix, filename, budget - |prefix|);
    }
  }

  lemma ComposeFits(prefix: seq<byte>, filename: seq<byte>, maxBytes: nat)
    requires |prefix| + |filename| <= Min(maxBytes, MAX_FILENAME_BYTES)
    ensures ComposeStorageBasename(prefix, filename, maxBytes) == prefix + filename
  {
    var budget := Min(maxBytes, MAX_FILENAME_BYTES);
    if |prefix| == budget {
      assert filename == [] && prefix[..budget] == prefix + [];
    } else {
      TruncateCases(filename, budget - |prefix|);
    }
  }

  lemma RestIsShortened(prefix: seq<byte>, filename: seq<byte>, k: nat)
    requires Valid(filename) && 0 < k < |filename| && k <= MAX_FILENAME_BYTES
    ensures ShortenedBehind(prefix, filename, k, prefix + Truncate(filename, k))
  {
    hide Truncate, Valid, IsShortened;
    TruncateIsShortened(filename, k);
    TruncateIsSound(filename, k);
    BehindPrefix(prefix, filename, k, Truncate(filename, k));
  }

  ghost predicate ShortenedBehind(prefix: seq<byte>, filename: seq<byte>, k: nat, r: seq<byte>) {
    prefix <= r && IsShortened(filename, k, r[|prefix|..]) && k <= |r[|prefix|..]| + 3
  }

  lemma BehindPrefix(prefix: seq<byte>, filename: seq<byte>, k: nat, rest: seq<byte>)
    requires IsShortened(filename, k, rest) && k <= |rest| + 3
    ensures ShortenedBehind(prefix, filename, k, prefix + rest)
  {
    assert (prefix + rest)[|prefix|..] == rest;
  }
}
