/** Marker files of unfinished receives: ".<data basename>.t2t-receiving" next to the data
    file. */
module ReceiveMarker {
  import Utf8Filename
  type byte = Utf8Filename.byte

  const SLASH: byte := 0x2F
  const BACKSLASH: byte := 0x5C
  const DOT: byte := Utf8Filename.DOT

  /** ".t2t-receiving" */
  const SUFFIX: seq<byte> :=
    [0x2E, 0x74, 0x32, 0x74, 0x2D, 0x72, 0x65, 0x63, 0x65, 0x69, 0x76, 0x69, 0x6E, 0x67]

  predicate IsSeparator(b: byte) {
    b == SLASH || b == BACKSLASH
  }

  /** Where the basename of a path starts. */
  function BaseStart(path: seq<byte>): (k: nat)
    ensures k <= |path|
    ensures k > 0 ==> IsSeparator(path[k - 1])
    ensures forall i :: k <= i < |path| ==> !IsSeparator(path[i])
  {
    if path == [] || IsSeparator(path[|path| - 1]) then |path| else BaseStart(path[..|path| - 1])
  }

  function Directory(path: seq<byte>): seq<byte> {
    path[..BaseStart(path)]
  }

  function Basename(path: seq<byte>): seq<byte> {
    path[BaseStart(path)..]
  }

  function ReceiveMarkerPath(dataPath: seq<byte>): seq<byte> {
    Directory(dataPath) + ([DOT] + Basename(dataPath) + SUFFIX)
  }

  function DataNameForMarker(name: seq<byte>): seq<byte> {
    if |name| <= |SUFFIX| + 1 || name[0] != DOT || name[|name| - |SUFFIX|..] != SUFFIX then []
    else name[1..|name| - |SUFFIX|]
  }

  /** A name is read as a marker exactly when it is one: a dot, some data name, the suffix. */
  lemma MarkerIff(name: seq<byte>, data: seq<byte>)
    requires data != []
    ensures DataNameForMarker(name) == data <==> name == [DOT] + data + SUFFIX
  {
    var marker := [DOT] + data + SUFFIX;
    assert marker[|marker| - |SUFFIX|..] == SUFFIX && marker[1..|marker| - |SUFFIX|] == data;
    if DataNameForMarker(name) == data {
      assert name == [name[0]] + name[1..|name| - |SUFFIX|] + name[|name| - |SUFFIX|..];
    }
  }

  lemma MarkerParts(dataPath: seq<byte>)
    ensures Directory(ReceiveMarkerPath(dataPath)) == Directory(dataPath)
    ensures Basename(ReceiveMarkerPath(dataPath)) == [DOT] + Basename(dataPath) + SUFFIX
  {
    var dir, name := Directory(dataPath), [DOT] + Basename(dataPath) + SUFFIX;
    assert forall b :: b in Basename(dataPath) ==> !IsSeparator(b);
    assert forall b :: b in SUFFIX ==> !IsSeparator(b);
    assert forall i :: 0 <= i < |name| ==> !IsSeparator(name[i]);
    BaseStartOf(dir, name);
  }

  lemma {:induction false} BaseStartOf(dir: seq<byte>, name: seq<byte>)
    requires dir == [] || IsSeparator(dir[|dir| - 1])
    requires forall i :: 0 <= i < |name| ==> !IsSeparator(name[i])
    ensures BaseStart(dir + name) == |dir|
    ensures Directory(dir + name) == dir && Basename(dir + name) == name
  {
    var path := dir + name;
    var k := BaseStart(path);
    assert forall i :: |dir| <= i < |path| ==> path[i] == name[i - |dir|] && !IsSeparator(path[i]);
    assert dir != [] ==> path[|dir| - 1] == dir[|dir| - 1];
  }

  /** The marker lies in the data file's directory: what ends in the last slash or backslash
      of the path stays, and the name behind it gets the dot and the suffix. */
  lemma MarkerLiesBeside(dir: seq<byte>, name: seq<byte>)
    requires dir == [] || dir[|dir| - 1] == 0x2F || dir[|dir| - 1] == 0x5C
    requires 0x2F !in name && 0x5C !in name
    ensures ReceiveMarkerPath(dir + name) == dir + ([DOT] + name + SUFFIX)
  {
    assert forall i :: 0 <= i < |name| ==> name[i] in name;
    BaseStartOf(dir, name);
  }

  /** Reading the basename of a marker gives back the data basename, for every path. */
  lemma MarkerRoundTrip(dataPath: seq<byte>)
    ensures DataNameForMarker(Basename(ReceiveMarkerPath(dataPath))) == Basename(dataPath)
  {
    MarkerParts(dataPath);
    if Basename(dataPath) != [] { MarkerIff([DOT] + Basename(dataPath) + SUFFIX, Basename(dataPath)); }
  }

  /** Two data files never share a marker. */
  lemma MarkerInjective(p: seq<byte>, q: seq<byte>)
    requires ReceiveMarkerPath(p) == ReceiveMarkerPath(q)
    ensures p == q
  {
    MarkerParts(p);
    MarkerParts(q);
    MarkerRoundTrip(p);
    MarkerRoundTrip(q);
    assert p == Directory(p) + Basename(p) && q == Directory(q) + Basename(q);
  }

  /** No storage name of a received file is ever read as a marker, whatever the sender
      called the file: the prefix does not start with a dot. */
  lemma StorageNameIsNoMarker(prefix: seq<byte>, filename: seq<byte>, maxBytes: nat)
    requires prefix != [] && prefix[0] != DOT && maxBytes >= 1
    ensures DataNameForMarker(Utf8Filename.ComposeStorageBasename(prefix, filename, maxBytes)) == []
  {
  }
}
