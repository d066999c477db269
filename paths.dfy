/** The parts of pathlib's file-name arithmetic that the converter relies on:
    the suffix of a name, the stem in front of it, and replacing the suffix. */
module PathNames {

  /** A file inside an extracted archive: its directory and its final name component. */
  datatype FilePath = FilePath(dir: string, name: string)

  /** `s.rfind(c)`: the index of the last occurrence of `c`, or -1. */
  function LastIndexOf(s: string, c: char): (i: int)
    ensures -1 <= i < |s|
    ensures 0 <= i ==> s[i] == c
    ensures forall j :: i < j < |s| ==> s[j] != c
  {
    if s == [] then -1
    else if s[|s| - 1] == c then |s| - 1
    else LastIndexOf(s[..|s| - 1], c)
  }

  /** The last dot of a name is where the contract of `LastIndexOf` puts it. */
  lemma LastDotAt(s: string, i: nat)
    requires i < |s| && s[i] == '.' && forall j :: i < j < |s| ==> s[j] != '.'
    ensures LastIndexOf(s, '.') == i
  {
  }

  /** A well-formed suffix: a dot followed by at least one character and no further dot. */
  predicate IsExtension(ext: string)
  {
    |ext| >= 2 && ext[0] == '.' && forall i :: 1 <= i < |ext| ==> ext[i] != '.'
  }

  /** `PurePath.suffix`: the name from its last dot on, provided that dot is
      neither the first nor the last character; otherwise empty. */
  function Suffix(name: string): (r: string)
    ensures r != "" <==> 0 < LastIndexOf(name, '.') < |name| - 1
    ensures r != "" ==> r == name[LastIndexOf(name, '.')..]
    ensures r == "" || (IsExtension(r) && |r| < |name| && r == name[|name| - |r|..])
  {
    var i := LastIndexOf(name, '.');
    if 0 < i < |name| - 1 then name[i..] else ""
  }

  /** `PurePath.stem`: the name without its suffix. */
  function Stem(name: string): (r: string)
    ensures r + Suffix(name) == name
    ensures name != "" ==> r != ""
  {
    name[..|name| - |Suffix(name)|]
  }

  /** `PurePath.with_suffix(ext)`; pathlib refuses an empty name. */
  function WithSuffix(name: string, ext: string): (r: string)
    requires name != ""
    ensures r != "" && |Stem(name)| <= |r| && r[..|Stem(name)|] == Stem(name)
  {
    Stem(name) + ext
  }

  /** Replacing the suffix by a well-formed one makes that the suffix and keeps the stem. */
  lemma {:induction false} SuffixOfWithSuffix(name: string, ext: string)
    requires name != "" && IsExtension(ext)
    ensures Suffix(WithSuffix(name, ext)) == ext
    ensures Stem(WithSuffix(name, ext)) == Stem(name)
  {
    var b := Stem(name);
    var s := b + ext;
    var i := LastIndexOf(s, '.');
    assert s[|b|] == '.';
    assert forall j :: |b| < j < |s| ==> s[j] == ext[j - |b|];
    assert i == |b|;
    assert s[i..] == ext;
  }

  /** The file with the same directory and stem, whatever its suffix: all the
      names one image can be renamed or encoded to share this key. */
  function StemKey(p: FilePath): FilePath
  {
    FilePath(p.dir, Stem(p.name))
  }

  /** Changing the suffix of a file keeps its stem key. */
  lemma StemKeyWithSuffix(p: FilePath, ext: string)
    requires p.name != "" && IsExtension(ext)
    ensures StemKey(FilePath(p.dir, WithSuffix(p.name, ext))) == StemKey(p)
    ensures WithSuffix(p.name, ext) != ""
  {
    SuffixOfWithSuffix(p.name, ext);
  }
}
