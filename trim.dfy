/** Whitespace trimming of the names typed at the prompt (demo.cpp:64-69). */
module InputText {
  import opened Wrappers

  /** The four characters the trim strips: space, tab, newline, carriage return. */
  predicate IsBlank(c: char)
  {
    c == ' ' || c == '\t' || c == '\n' || c == '\r'
  }

  ghost predicate AllBlank(s: string)
  {
    forall k :: 0 <= k < |s| ==> IsBlank(s[k])
  }

  /** `r` is `s` with the blank prefix `s[..i]` and a blank suffix cut off. */
  ghost predicate CutAt(s: string, r: string, i: nat)
  {
    && i + |r| <= |s|
    && s[i..i + |r|] == r
    && (forall k :: 0 <= k < i ==> IsBlank(s[k]))
    && (forall k :: i + |r| <= k < |s| ==> IsBlank(s[k]))
  }

  /** `find_first_not_of(" \t\n\r", from)`: the first non-blank index at or after `from`, or none. */
  function FindFirstNotOf(s: string, from: nat): (r: Option<nat>)
    requires from <= |s|
    ensures r.Some? ==> from <= r.value < |s| && !IsBlank(s[r.value])
    ensures r.Some? ==> forall k :: from <= k < r.value ==> IsBlank(s[k])
    ensures r.None? <==> forall k :: from <= k < |s| ==> IsBlank(s[k])
    decreases |s| - from
  {
    if from == |s| then None
    else if !IsBlank(s[from]) then Some(from)
    else FindFirstNotOf(s, from + 1)
  }

  /** `find_last_not_of(" \t\n\r")` restricted to `s[..n]`: the last non-blank index below `n`, or none. */
  function FindLastNotOf(s: string, n: nat): (r: Option<nat>)
    requires n <= |s|
    ensures r.Some? ==> r.value < n && !IsBlank(s[r.value])
    ensures r.Some? ==> forall k :: r.value < k < n ==> IsBlank(s[k])
    ensures r.None? <==> forall k :: 0 <= k < n ==> IsBlank(s[k])
  {
    if n == 0 then None
    else if !IsBlank(s[n - 1]) then Some(n - 1)
    else FindLastNotOf(s, n - 1)
  }

  /**
   * `s` without its leading and trailing blanks. The result is empty exactly
   * when `s` is all blanks; otherwise it neither starts nor ends with a blank and
   * it is the stretch of `s` left once a blank prefix and a blank suffix are cut.
   */
  function Trim(s: string): (r: string)
    ensures r == "" <==> AllBlank(s)
    ensures r != "" ==> !IsBlank(r[0]) && !IsBlank(r[|r| - 1])
    ensures exists i :: CutAt(s, r, i)
  {
    match FindFirstNotOf(s, 0)
    case None =>
      assert CutAt(s, "", 0);
      ""
    case Some(first) =>
      var last := FindLastNotOf(s, |s|).value;
      assert CutAt(s, s[first..last + 1], first);
      s[first..last + 1]
  }

  /**
   * The trimmed string is determined by its defining property: whenever `s`
   * splits into a blank prefix, a middle that is empty or has non-blank ends,
   * and a blank suffix, trimming returns that middle.
   */
  lemma TrimUnique(s: string, i: nat, j: nat)
    requires i <= j <= |s|
    requires forall k :: 0 <= k < i ==> IsBlank(s[k])
    requires forall k :: j <= k < |s| ==> IsBlank(s[k])
    requires i < j ==> !IsBlank(s[i]) && !IsBlank(s[j - 1])
    ensures Trim(s) == s[i..j]
  {
    if i == j {
      assert AllBlank(s);
    } else {
      var first := FindFirstNotOf(s, 0);
      var last := FindLastNotOf(s, |s|);
      assert first == Some(i);
      assert last == Some(j - 1);
    }
  }

  /** Trimming twice is trimming once. */
  lemma TrimIdempotent(s: string)
    ensures Trim(Trim(s)) == Trim(s)
  {
    var r := Trim(s);
    TrimUnique(r, 0, |r|);
    assert r[0..|r|] == r;
  }
}
