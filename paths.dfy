/** The parts of a path that pathlib.PurePath exposes and the program
    uses: the last component (name), what precedes it, and the split of a
    name into stem and suffix at its last dot. */
module Paths {

  /** Index just past the last '/' of p, or 0 when p has none. */
  function NameStart(p: string): (k: nat)
    ensures k <= |p|
    ensures k > 0 ==> p[k - 1] == '/'
    ensures forall i :: k <= i < |p| ==> p[i] != '/'
  {
    if p == [] then 0
    else if p[|p| - 1] == '/' then |p|
    else NameStart(p[..|p| - 1])
  }

  /** PurePath.name: the text after the last separator. */
  function Name(p: string): string {
    p[NameStart(p)..]
  }

  /** The directory part of p, with its trailing separator; empty for a
      bare file name. Joining it with a name is plain concatenation. */
  function DirPrefix(p: string): string {
    p[..NameStart(p)]
  }

  /** str.rfind('.'): the index of the last dot, or -1. */
  function LastDot(name: string): (i: int)
    ensures -1 <= i < |name|
    ensures i >= 0 ==> name[i] == '.'
    ensures forall j :: i < j < |name| ==> name[j] != '.'
  {
    if name == [] then -1
    else if name[|name| - 1] == '.' then |name| - 1
    else LastDot(name[..|name| - 1])
  }

  /** A name has a suffix when its last dot is neither the first nor the
      last character. */
  predicate HasSuffix(name: string) {
    0 < LastDot(name) < |name| - 1
  }

  /** PurePath.suffix: from the last dot on, or "". */
  function Suffix(name: string): string {
    if HasSuffix(name) then name[LastDot(name)..] else ""
  }

  /** PurePath.stem: the name without its suffix. */
  function Stem(name: string): string {
    if HasSuffix(name) then name[..LastDot(name)] else name
  }

  /** Stem and suffix split the name; a suffix is a dot followed by at
      least one character none of which is a dot. */
  lemma StemSuffixSplit(name: string)
    ensures Stem(name) + Suffix(name) == name
    ensures Suffix(name) == "" || (|Suffix(name)| >= 2 && Suffix(name)[0] == '.'
                                    && forall j :: 1 <= j < |Suffix(name)| ==> Suffix(name)[j] != '.')
    ensures Suffix(name) != "" ==> |Stem(name)| >= 1
  {
    if HasSuffix(name) {
      var i := LastDot(name);
      assert name[..i] + name[i..] == name;
      forall j | 1 <= j < |Suffix(name)| ensures Suffix(name)[j] != '.' {
        assert Suffix(name)[j] == name[i + j];
      }
    }
  }

  /** A path splits into its directory prefix and its name. */
  lemma DirPrefixName(p: string)
    ensures DirPrefix(p) + Name(p) == p
    ensures '/' !in Name(p)
    ensures DirPrefix(p) == "" || DirPrefix(p)[|DirPrefix(p)| - 1] == '/'
  {
    var k := NameStart(p);
    assert p[..k] + p[k..] == p;
  }

  /** A file name after a directory prefix is the path's name. */
  lemma NameAfterDir(dir: string, file: string)
    requires dir == "" || dir[|dir| - 1] == '/'
    requires '/' !in file
    ensures Name(dir + file) == file && DirPrefix(dir + file) == dir
  {
    var p := dir + file;
    assert dir != [] ==> p[|dir| - 1] == '/';
    assert forall i :: |dir| <= i < |p| ==> p[i] == file[i - |dir|];
    assert p[|dir|..] == file && p[..|dir|] == dir;
  }

  /** A dot-free extension after a non-empty stem is the suffix. */
  lemma StemSuffixOf(stem: string, ext: string)
    requires stem != [] && ext != [] && '.' !in ext
    ensures Stem(stem + "." + ext) == stem
    ensures Suffix(stem + "." + ext) == "." + ext
  {
    var name := stem + "." + ext;
    assert name[|stem|] == '.';
    assert forall i :: |stem| < i < |name| ==> name[i] == ext[i - |stem| - 1];
    assert name[..|stem|] == stem;
    assert name[|stem|..] == "." + ext;
  }

  /** A name that starts with its only dot (".wav") has no suffix. */
  lemma HiddenNameNoSuffix(ext: string)
    requires '.' !in ext
    ensures Suffix("." + ext) == "" && Stem("." + ext) == "." + ext
  {
    var name := "." + ext;
    assert forall j :: 1 <= j < |name| ==> name[j] == ext[j - 1];
  }
}
