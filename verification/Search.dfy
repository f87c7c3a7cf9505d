/** Substring search, as `str::find` does it. */
module Search {
  import opened Common

  predicate OccursAt<T(==)>(s: seq<T>, d: seq<T>, i: int) {
    0 <= i && i + |d| <= |s| && s[i..i + |d|] == d
  }

  /** The first place `d` occurs in `s`. */
  function Find<T(==)>(s: seq<T>, d: seq<T>): (r: Option<nat>)
    ensures r.Some? ==> OccursAt(s, d, r.value) && forall j :: j < r.value ==> !OccursAt(s, d, j)
    ensures r.None? ==> forall j :: !OccursAt(s, d, j)
  {
    FindFrom(s, d, 0)
  }

  function FindFrom<T(==)>(s: seq<T>, d: seq<T>, i: nat): (r: Option<nat>)
    requires i <= |s|
    ensures r.Some? ==> i <= r.value && OccursAt(s, d, r.value) && forall j :: i <= j < r.value ==> !OccursAt(s, d, j)
    ensures r.None? ==> forall j :: i <= j ==> !OccursAt(s, d, j)
    decreases |s| - i
  {
    if OccursAt(s, d, i) then Some(i)
    else if i == |s| then None
    else FindFrom(s, d, i + 1)
  }

  /** An occurrence lies within any stretch that covers it. */
  lemma OccursInPrefix<T>(s: seq<T>, t: seq<T>, d: seq<T>, n: nat, j: int)
    requires n <= |s| && n <= |t| && s[..n] == t[..n] && j + |d| <= n
    ensures OccursAt(s, d, j) <==> OccursAt(t, d, j)
  {
    if 0 <= j {
      assert s[j..j + |d|] == s[..n][j..j + |d|];
      assert t[j..j + |d|] == t[..n][j..j + |d|];
    }
  }
}
