/**
 * The parts of file-path handling the upload filter and the captions rely on: the final component (`Path.name`),
 * its extension (`Path.suffix`) and the name without it (`Path.stem`), lower-casing of the
 * extension, the accepted extensions, and `os.path.join` on POSIX.
 */
module Paths {
  const SEP: char := '/'

  /** Position of the last `c` in `s`, or -1 (Python's `str.rfind`). */
  function LastIndexOf(s: string, c: char): (i: int)
    ensures -1 <= i < |s|
    ensures i >= 0 ==> s[i] == c
    ensures forall k :: i < k < |s| ==> s[k] != c
  {
    if |s| == 0 then -1
    else if s[|s| - 1] == c then |s| - 1
    else LastIndexOf(s[..|s| - 1], c)
  }

  /** The final path component: everything after the last separator. */
  function Name(path: string): (name: string)
    ensures SEP !in name
    ensures |name| <= |path| && name == path[|path| - |name|..]
  {
    var i := LastIndexOf(path, SEP);
    path[i + 1..]
  }

  /** The final component is all of the path after its last separator, or the whole path when it has none. */
  lemma NameAfterLastSeparator(path: string)
    ensures |Name(path)| < |path| ==> path[|path| - |Name(path)| - 1] == SEP
    ensures |Name(path)| == |path| <==> SEP !in path
  {
  }

  /** True when the last dot of `name` is neither its first nor its last character. */
  predicate HasSuffix(name: string) {
    var i := LastIndexOf(name, '.');
    0 < i < |name| - 1
  }

  /** `Path(path).suffix`: from the last dot on, or empty when the name has no proper extension. */
  function Suffix(path: string): string {
    var name := Name(path);
    if HasSuffix(name) then name[LastIndexOf(name, '.')..] else ""
  }

  /** `Path(path).stem`: the name without its suffix. */
  function Stem(path: string): string {
    var name := Name(path);
    if HasSuffix(name) then name[..LastIndexOf(name, '.')] else name
  }

  /** Stem and suffix split the final component: together they give it back. */
  lemma StemSuffixSplitName(path: string)
    ensures Stem(path) + Suffix(path) == Name(path)
    ensures Suffix(path) != "" ==> Suffix(path)[0] == '.' && '.' !in Suffix(path)[1..] && |Suffix(path)| >= 2
    ensures Stem(path) == "" <==> Name(path) == ""
    ensures Suffix(path) != "" <==> 0 < LastIndexOf(Name(path), '.') < |Name(path)| - 1
  {
    var name := Name(path);
    if HasSuffix(name) {
      var i := LastIndexOf(name, '.');
      assert name[..i] + name[i..] == name;
      forall k | 1 <= k < |name[i..]| ensures name[i..][k] != '.' {
        assert name[i..][k] == name[i + k];
      }
    }
  }

  /** ASCII lower-casing, as `str.lower` acts on the characters of an accepted extension. */
  function LowerChar(c: char): char {
    if 'A' <= c <= 'Z' then (c as int + 32) as char else c
  }

  function Lower(s: string): (r: string)
    ensures |r| == |s|
    ensures forall k :: 0 <= k < |s| ==> r[k] == LowerChar(s[k])
  {
    if |s| == 0 then "" else Lower(s[..|s| - 1]) + [LowerChar(s[|s| - 1])]
  }

  const VALID_EXTENSIONS: set<string> := {".jpg", ".jpeg", ".png"}

  /** The upload filter: the lower-cased suffix is one of the accepted extensions. */
  predicate HasValidExtension(path: string) {
    Lower(Suffix(path)) in VALID_EXTENSIONS
  }

  /** A path with an accepted extension has a non-empty final component, so the path is not empty. */
  lemma AcceptedNameNotEmpty(path: string)
    requires HasValidExtension(path)
    ensures Name(path) != "" && path != ""
  {
    var suffix := Suffix(path);
    assert |Lower(suffix)| >= 4;
    assert suffix != "";
  }

  /** `os.path.join(dir, name)` for POSIX paths. */
  function Join(dir: string, name: string): (p: string)
    ensures |name| > 0 && name[0] != SEP ==> |p| >= |name| && p[|p| - |name|..] == name
  {
    if |name| > 0 && name[0] == SEP then name
    else if dir == "" || dir[|dir| - 1] == SEP then dir + name
    else dir + [SEP] + name
  }

  /**
   * The shape of a joined path: an absolute name replaces the directory; otherwise the result
   * starts with the directory and ends with the name, with one separator between them exactly
   * when the directory is not empty and does not already end with one.
   */
  lemma JoinShape(dir: string, name: string)
    ensures |name| > 0 && name[0] == SEP ==> Join(dir, name) == name
    ensures !(|name| > 0 && name[0] == SEP) ==>
      var p := Join(dir, name);
      && |dir| <= |p| && p[..|dir|] == dir
      && |p| - |name| <= |p| && p[|p| - |name|..] == name
      && |p| - |dir| - |name| == (if dir != "" && dir[|dir| - 1] != SEP then 1 else 0)
      && (dir != "" && dir[|dir| - 1] != SEP ==> p[|dir|] == SEP)
  {
  }

  /** Joining a bare file name onto a directory keeps the file name as the final component. */
  lemma {:induction false} JoinKeepsName(dir: string, name: string)
    requires name != "" && SEP !in name
    ensures Name(Join(dir, name)) == name
  {
    var p := Join(dir, name);
    var i := LastIndexOf(p, SEP);
    assert p[|p| - |name|..] == name;
    forall k | |p| - |name| <= k < |p| ensures p[k] != SEP {
      assert p[k] == name[k - (|p| - |name|)];
    }
    if name[0] != SEP && dir != "" {
      assert p[|p| - |name| - 1] == SEP;
    }
    assert i == |p| - |name| - 1;
  }
}
