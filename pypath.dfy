/** The parts of Python's pathlib that the scripts use to name files (POSIX separators). */
module PyPath {
  import opened Wrappers
  import opened Strings

  /** A path: the directory it lives in and its final component (pathlib's `name`). */
  datatype Path = Path(dir: string, name: string)

  /** The path as one string, `dir/name`. */
  function Full(p: Path): string {
    if p.dir == "" then p.name else p.dir + "/" + p.name
  }

  /** `p / name`. */
  function Child(p: Path, name: string): Path {
    Path(Full(p), name)
  }

  /** `Path(s).name` for a relative reference such as "media/image1.png": the text after the
      last '/'. */
  function Basename(s: string): (r: string)
    ensures EndsWith(s, r) && forall k :: 0 <= k < |r| ==> r[k] != '/'
  {
    var i := RFind(s, '/');
    s[i + 1..]
  }

  /** Index of the dot that starts pathlib's suffix, when the name has one: the last dot,
      provided it is neither the first nor the last character. */
  function SuffixDot(name: string): (r: Option<nat>)
    ensures r.Some? ==>
              0 < r.value < |name| - 1 && name[r.value] == '.'
              && forall k :: r.value < k < |name| ==> name[k] != '.'
    ensures r.None? ==> var i := RFind(name, '.'); i <= 0 || i == |name| - 1
  {
    var i := RFind(name, '.');
    if 0 < i < |name| - 1 then
      Some(i)
    else None
  }

  /** `Path(name).suffix`. */
  function Suffix(name: string): string {
    match SuffixDot(name)
    case Some(i) => name[i..]
    case None => ""
  }

  /** `Path(name).stem`. */
  function Stem(name: string): string {
    match SuffixDot(name)
    case Some(i) => name[..i]
    case None => name
  }

  /** The stem and the suffix are the two halves of the name; the suffix is empty or one dot
      followed by at least one character that is not a dot. */
  lemma StemSuffix(name: string)
    ensures Stem(name) + Suffix(name) == name
    ensures var x := Suffix(name);
      x == "" || (|x| >= 2 && x[0] == '.' && forall k :: 0 < k < |x| ==> x[k] != '.')
  {
  }

  /** `p.with_suffix(suffix)`. */
  function WithSuffix(p: Path, suffix: string): Path {
    Path(p.dir, Stem(p.name) + suffix)
  }

  /** `p.with_name(name)`. */
  function WithName(p: Path, name: string): Path {
    Path(p.dir, name)
  }

  /** A file the scripts write: where, and what. */
  datatype Written = Written(path: Path, content: string)
}
