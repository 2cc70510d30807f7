/** Path strings as the standard library's path helpers see them ('/' separates components). */
module Paths {

  /** The index of the last `ch` in `s`, or -1 (`str.rfind`). */
  function LastIndexOf(s: string, ch: char): (r: int)
    ensures -1 <= r < |s|
    ensures r >= 0 ==> s[r] == ch
    ensures forall i :: r < i < |s| ==> s[i] != ch
  {
    if |s| == 0 then -1
    else if s[|s| - 1] == ch then |s| - 1
    else LastIndexOf(s[..|s| - 1], ch)
  }

  /** `Path(dir) / name` for a relative `name`: the directory, a separator, then the name. */
  function Join(dir: string, name: string): (r: string)
    ensures |r| == |dir| + 1 + |name|
    ensures r[..|dir|] == dir && r[|dir|] == '/' && r[|dir| + 1..] == name
    ensures EndsWith(r, name)
  {
    dir + "/" + name
  }

  predicate EndsWith(s: string, suffix: string)
  {
    |suffix| <= |s| && s[|s| - |suffix|..] == suffix
  }

  /** The final component of `p` has a character other than '.' (so it has a stem). */
  predicate HasStem(p: string)
  {
    exists i :: LastIndexOf(p, '/') < i < |p| && p[i] != '.'
  }
}
