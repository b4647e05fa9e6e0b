/** The string helpers of src/operations/utility.ts, on the POSIX branch
    (`process.platform` is not `win32`, so `path.sep` is `/`). */
module PathUtil {
  import opened Results
  import opened JsString

  function Min(a: int, b: int): int { if a <= b then a else b }

  /** `str.slice(b)`: a negative `b` counts from the end and is clamped to 0. */
  function SliceFrom(str: string, b: int): string
  {
    if b < 0 then (if |str| + b < 0 then str else str[|str| + b..])
    else if b >= |str| then []
    else str[b..]
  }

  /** `startsWith`: compares `str.slice(0, start.length)` with `start`, so it
      holds exactly when `start` is a prefix of `str`. */
  function StartsWith(str: string, start: string): (r: bool)
    ensures r <==> |start| <= |str| && str[..|start|] == start
  {
    str[..Min(|start|, |str|)] == start
  }

  /** A one-character prefix test looks at the first character only. */
  lemma StartsWithChar(str: string, c: char)
    ensures StartsWith(str, [c]) <==> |str| > 0 && str[0] == c
  {
    if |str| > 0 {
      assert str[..1] == [str[0]];
    }
  }

  /** `endsWith`: compares `str.slice(-end.length)` with `end`. For a non-empty
      `end` this is the suffix test; because `-0` is `0`, an empty `end` is only
      accepted by an empty `str`. */
  function EndsWith(str: string, end: string): (r: bool)
    ensures end != [] ==> (r <==> |end| <= |str| && str[|str| - |end|..] == end)
    ensures end == [] ==> (r <==> str == [])
  {
    SliceFrom(str, -|end|) == end
  }

  /** `s` holds no two adjacent separators. */
  predicate NoDoubleSlash(s: string) {
    forall i :: 0 <= i < |s| - 1 ==> !(s[i] == '/' && s[i + 1] == '/')
  }

  /** `normalizeSeparators`: every run of `/` becomes a single `/`. */
  function NormalizeSeparators(p: string): (r: string)
    ensures NoDoubleSlash(r)
    ensures |r| <= |p|
    ensures r == [] <==> p == []
    ensures p != [] ==> r[0] == p[0]
    ensures NoDoubleSlash(p) ==> r == p
    decreases |p|
  {
    if |p| >= 2 && p[0] == '/' && p[1] == '/' then NormalizeSeparators(p[1..])
    else if p == [] then []
    else [p[0]] + NormalizeSeparators(p[1..])
  }

  /** Normalizing twice is normalizing once. */
  lemma NormalizeIdempotent(p: string)
    ensures NormalizeSeparators(NormalizeSeparators(p)) == NormalizeSeparators(p)
  {
  }

  /** Doubling a separator anywhere does not change the normal form; with
      the fixpoint clause of `NormalizeSeparators` (a string without `//` is
      its own normal form) this pins the normal form down completely. */
  lemma {:induction false} NormalizeDuplicateSlash(s: string, i: nat)
    requires i < |s| && s[i] == '/'
    ensures NormalizeSeparators(s[..i] + "/" + s[i..]) == NormalizeSeparators(s)
    decreases i
  {
    var t := s[..i] + "/" + s[i..];
    if i == 0 {
      assert t[1..] == s;
    } else {
      assert t[0] == s[0];
      assert t[1] == s[1];
      assert t[1..] == s[1..][..i - 1] + "/" + s[1..][i - 1..];
      NormalizeDuplicateSlash(s[1..], i - 1);
    }
  }

  /** `isRooted`: fails on an empty path; otherwise a path is rooted when its
      normal form starts with `/`, which is when the path itself does. */
  function IsRooted(p: string): (r: Result<bool>)
    ensures r.Failure? <==> p == []
    ensures r.Success? ==> (r.value <==> p[0] == '/')
  {
    var n := NormalizeSeparators(p);
    if n == [] then Failure("isRooted() parameter \"p\" cannot be empty")
    else Success(StartsWith(n, "/"))
  }

  /** `ensureRooted`: fails on an empty `root` or `p`; keeps a rooted `p`;
      otherwise prefixes `root`, adding one `/` only when `root` lacks a
      trailing one. */
  function EnsureRooted(root: string, p: string): (r: Result<string>)
    ensures r.Failure? <==> root == [] || p == []
    ensures r.Success? && p[0] == '/' ==> r.value == p
    ensures r.Success? && p[0] != '/' ==>
              |r.value| == |root| + |p| + (if root[|root| - 1] == '/' then 0 else 1)
              && r.value[..|root|] == root
              && r.value[|r.value| - |p| - 1] == '/'
    ensures r.Success? ==> |r.value| >= |p| && r.value[|r.value| - |p|..] == p
  {
    if root == [] then Failure("ensureRooted() parameter \"root\" cannot be empty")
    else if p == [] then Failure("ensureRooted() parameter \"p\" cannot be empty")
    else if IsRooted(p).value then Success(p)
    else
      var sepRoot := if EndsWith(root, "/") then root else root + "/";
      Success(sepRoot + p)
  }

  /** The rooted path is rooted whenever the root or the path is. */
  lemma EnsureRootedIsRooted(root: string, p: string)
    requires root != [] && p != []
    requires root[0] == '/' || p[0] == '/'
    ensures IsRooted(EnsureRooted(root, p).value) == Success(true)
  {
  }

  /** Rooting an already rooted result under the same rooted root changes nothing. */
  lemma EnsureRootedIdempotent(root: string, p: string)
    requires root != [] && p != [] && root[0] == '/'
    ensures EnsureRooted(root, EnsureRooted(root, p).value) == EnsureRooted(root, p)
  {
    EnsureRootedIsRooted(root, p);
  }

  /** `firstWildcardIndex` inside `findfiles`: the first position holding `*`
      or `?`, or -1 when there is neither. */
  function FirstWildcardIndex(s: string): (r: int)
    ensures r == -1 <==> forall i :: 0 <= i < |s| ==> s[i] != '*' && s[i] != '?'
    ensures r != -1 ==> 0 <= r < |s| && (s[r] == '*' || s[r] == '?')
                        && forall i :: 0 <= i < r ==> s[i] != '*' && s[i] != '?'
  {
    var idx := IndexOf(s, '*');
    var idxOfWildcard := IndexOf(s, '?');
    if idxOfWildcard > -1 then
      (if idx > -1 then Min(idx, idxOfWildcard) else idxOfWildcard)
    else idx
  }
}
