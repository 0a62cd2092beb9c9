/** Absolute filesystem paths as sequences of name segments, and the few
    pathlib operations the sync engine and the decryptor rely on. */
module Paths {

  datatype Option<+T> = None | Some(value: T)

  /** One path segment, such as "dir1" or "file.tar.gz". */
  type Name = string

  /** An absolute path: the segments below the filesystem root. The root is []. */
  type Path = seq<Name>

  /** Every segment is a real name (pathlib never yields an empty part). */
  predicate WellFormed(p: Path) {
    forall i :: 0 <= i < |p| ==> p[i] != ""
  }

  predicate IsPrefix(base: Path, p: Path) {
    |base| <= |p| && p[..|base|] == base
  }

  /** `p` lies strictly below `root`. */
  predicate StrictlyUnder(p: Path, root: Path) {
    |root| < |p| && p[..|root|] == root
  }

  /** PurePath.parent; the root is its own parent. */
  function Parent(p: Path): (r: Path)
    ensures IsPrefix(r, p)
    ensures p != [] ==> |r| == |p| - 1
  {
    if p == [] then [] else p[..|p| - 1]
  }

  /** PurePath.name; the root's name is the empty string. */
  function LastName(p: Path): Name {
    if p == [] then "" else p[|p| - 1]
  }

  /** `p / n` for a single segment: joining "" leaves the path unchanged. */
  function Join(p: Path, n: Name): (r: Path)
    ensures n != "" ==> r == p + [n] && Parent(r) == p && LastName(r) == n
    ensures n == "" ==> r == p
  {
    if n == "" then p else p + [n]
  }

  /** PurePath.relative_to: fails (None) exactly when `p` is not under `base`. */
  function RelativeTo(p: Path, base: Path): (r: Option<Path>)
    ensures r.Some? <==> IsPrefix(base, p)
    ensures r.Some? ==> base + r.value == p
  {
    if IsPrefix(base, p) then Some(p[|base|..]) else None
  }

  lemma PrefixTransitive(a: Path, b: Path, c: Path)
    requires IsPrefix(a, b) && IsPrefix(b, c)
    ensures IsPrefix(a, c)
  {
    assert c[..|a|] == c[..|b|][..|a|];
  }

  lemma ParentJoin(p: Path)
    requires p != []
    ensures Parent(p) + [LastName(p)] == p
  {
  }

  // ---------------------------------------------------------------------
  // Suffix and stem of a name (pathlib's rule: the last dot counts only if
  // it is neither the first nor the last character of the name).
  // ---------------------------------------------------------------------

  /** str.rfind for a single character: the last index of `c`, or -1. */
  function RFind(s: string, c: char): (i: int)
    ensures -1 <= i < |s|
    ensures i >= 0 ==> s[i] == c
    ensures forall j :: i < j < |s| ==> s[j] != c
  {
    if s == [] then -1
    else if s[|s| - 1] == c then |s| - 1
    else RFind(s[..|s| - 1], c)
  }

  /** Index of the dot that starts the suffix, or -1 when there is no suffix. */
  function SuffixDot(name: Name): (i: int)
    ensures i == -1 || (0 < i < |name| - 1 && name[i] == '.')
  {
    var i := RFind(name, '.');
    if 0 < i < |name| - 1 then i else -1
  }

  /** PurePath.suffix: "" when the name has no suffix. */
  function Suffix(name: Name): string {
    var i := SuffixDot(name);
    if i == -1 then "" else name[i..]
  }

  /** PurePath.stem: the name without its suffix. */
  function Stem(name: Name): string {
    var i := SuffixDot(name);
    if i == -1 then name else name[..i]
  }

  /** The stem and the suffix put back together give the name; the suffix,
      when present, is a dot followed by at least one character and no dot. */
  lemma StemSuffix(name: Name)
    ensures Stem(name) + Suffix(name) == name
    ensures Suffix(name) == "" || (|Suffix(name)| >= 2 && Suffix(name)[0] == '.')
    ensures forall j :: 0 < j < |Suffix(name)| ==> Suffix(name)[j] != '.'
    ensures Suffix(name) != "" ==> Stem(name) != ""
  {
    var i := SuffixDot(name);
    if i != -1 {
      assert name[..i] + name[i..] == name;
      forall j | 0 < j < |Suffix(name)|
        ensures Suffix(name)[j] != '.'
      {
        assert Suffix(name)[j] == name[i + j];
      }
    }
  }

  predicate EndsWith(s: string, t: string) {
    |t| <= |s| && s[|s| - |t|..] == t
  }

  predicate StartsWith(s: string, t: string) {
    |t| <= |s| && s[..|t|] == t
  }

  /** The path shown in log lines: "/" followed by the segments joined by "/". */
  function Render(p: Path): string {
    if p == [] then "/" else RenderTail(p)
  }

  function RenderTail(p: Path): string {
    if p == [] then "" else "/" + p[0] + RenderTail(p[1..])
  }
}
