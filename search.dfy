/** Substring search on sequences, as Python's `str` and `bytes` provide it:
    `t in s`, `s.startswith(p)`, `s.find(t)` and `s.split(sep, 1)`. */
module Search {

  datatype Option<T> = None | Some(value: T)

  /** `t` occurs in `s` starting at index `i`. */
  predicate OccursAt<T(==)>(s: seq<T>, t: seq<T>, i: int)
  {
    0 <= i && i + |t| <= |s| && s[i..i + |t|] == t
  }

  /** Python's `t in s`. */
  predicate Contains<T(==)>(s: seq<T>, t: seq<T>)
  {
    exists i | 0 <= i <= |s| - |t| :: OccursAt(s, t, i)
  }

  /** Python's `s.startswith(p)`. */
  predicate StartsWith<T(==)>(s: seq<T>, p: seq<T>)
  {
    |p| <= |s| && s[..|p|] == p
  }

  /** The first occurrence of `t` in `s` at or after index `k`. */
  function IndexFrom<T(==)>(s: seq<T>, t: seq<T>, k: nat): (r: Option<nat>)
    decreases |s| - k
    ensures r.Some? ==> k <= r.value && OccursAt(s, t, r.value)
    ensures r.Some? ==> forall j :: k <= j < r.value ==> !OccursAt(s, t, j)
    ensures r.None? ==> forall j :: k <= j ==> !OccursAt(s, t, j)
  {
    if k + |t| > |s| then None
    else if s[k..k + |t|] == t then Some(k)
    else IndexFrom(s, t, k + 1)
  }

  /** Python's `s.find(t)`, with `None` for -1: the first occurrence, found exactly when `t in s`. */
  function IndexOf<T(==)>(s: seq<T>, t: seq<T>): (r: Option<nat>)
    ensures r.Some? <==> Contains(s, t)
    ensures r.Some? ==> OccursAt(s, t, r.value) && forall j :: 0 <= j < r.value ==> !OccursAt(s, t, j)
  {
    var r := IndexFrom(s, t, 0);
    if r.Some? then r
    else
      assert forall j | 0 <= j <= |s| - |t| :: !OccursAt(s, t, j);
      r
  }

  /** Python's `s.split(sep, 1)`: `[s]` when `sep` does not occur, otherwise the text before
      and the text after its first occurrence. Python refuses an empty separator. */
  function SplitOnce<T(==)>(s: seq<T>, sep: seq<T>): (parts: seq<seq<T>>)
    requires |sep| > 0
    ensures |parts| == 1 || |parts| == 2
    ensures |parts| == 1 <==> !Contains(s, sep)
    ensures |parts| == 1 ==> parts[0] == s
    ensures |parts| == 2 ==> s == parts[0] + sep + parts[1]
    ensures |parts| == 2 ==> OccursAt(s, sep, |parts[0]|)
    ensures |parts| == 2 ==> forall j :: 0 <= j < |parts[0]| ==> !OccursAt(s, sep, j)
  {
    match IndexOf(s, sep)
    case None => [s]
    case Some(i) =>
      assert s == s[..i] + sep + s[i + |sep|..];
      [s[..i], s[i + |sep|..]]
  }

  /** Two first occurrences are the same occurrence. */
  lemma FirstOccurrenceUnique<T>(s: seq<T>, t: seq<T>, i: nat, k: nat)
    requires OccursAt(s, t, i) && forall j :: 0 <= j < i ==> !OccursAt(s, t, j)
    requires OccursAt(s, t, k) && forall j :: 0 <= j < k ==> !OccursAt(s, t, j)
    ensures i == k
  {
  }
}
