/**
 * The PHP string built-ins that the backup code uses to pick destinations
 * apart: empty(), rtrim() with one character, strpos()/explode() on a
 * separator, and stripos() tested against position 0.
 */
module PhpStrings {
  import opened Results

  /** empty() on a string value: both "" and "0" count as empty. */
  predicate IsEmpty(s: string) {
    s == "" || s == "0"
  }

  /** rtrim($s, $c): drop every trailing occurrence of c. */
  function RTrim(s: string, c: char): (r: string)
    ensures |r| <= |s| && r == s[..|r|]
    ensures r == [] || r[|r| - 1] != c
    ensures forall i :: |r| <= i < |s| ==> s[i] == c
    decreases |s|
  {
    if s != [] && s[|s| - 1] == c then RTrim(s[..|s| - 1], c) else s
  }

  /** pat occurs in s starting at position j. */
  predicate OccursAt(s: string, pat: string, j: nat) {
    j + |pat| <= |s| && s[j..j + |pat|] == pat
  }

  /** An occurrence stays where it is when text is appended. */
  lemma OccursExtended(s: string, t: string, pat: string, j: nat)
    requires OccursAt(s, pat, j)
    ensures OccursAt(s + t, pat, j)
  {
    assert (s + t)[j..j + |pat|] == s[j..j + |pat|];
  }

  /** An occurrence moves right by the length of text put in front. */
  lemma OccursShifted(u: string, s: string, pat: string, j: nat)
    requires OccursAt(s, pat, j)
    ensures OccursAt(u + s, pat, |u| + j)
  {
    assert (u + s)[|u| + j..|u| + j + |pat|] == s[j..j + |pat|];
  }

  /** strpos($s, $pat): the first position at which pat occurs in s, if any. */
  function Find(s: string, pat: string): (r: Option<nat>)
    requires pat != []
    ensures r.Some? ==> OccursAt(s, pat, r.value)
    ensures forall j: nat :: (r.None? || j < r.value) ==> !OccursAt(s, pat, j)
    decreases |s|
  {
    if |s| < |pat| then None
    else if s[..|pat|] == pat then Some(0)
    else
      var r := Find(s[1..], pat);
      assert forall j: nat :: 1 <= j ==> (OccursAt(s, pat, j) <==> OccursAt(s[1..], pat, j - 1));
      match r
      case None => None
      case Some(i) => Some(i + 1)
  }

  /** strpos($s, $pat) !== false */
  predicate Contains(s: string, pat: string)
    requires pat != []
  {
    Find(s, pat).Some?
  }

  /** array_pop(explode($pat, $s, 2)): the text after the first pat, or all of s. */
  function AfterFirst(s: string, pat: string): string
    requires pat != []
  {
    match Find(s, pat)
    case Some(i) => s[i + |pat|..]
    case None => s
  }

  /** array_shift(explode($pat, $s)): the text before the first pat, or all of s. */
  function BeforeFirst(s: string, pat: string): string
    requires pat != []
  {
    match Find(s, pat)
    case Some(i) => s[..i]
    case None => s
  }

  /** A string splits at its first pat into the two explode() halves. */
  lemma SplitAtFirst(s: string, pat: string)
    requires pat != [] && Contains(s, pat)
    ensures s == BeforeFirst(s, pat) + pat + AfterFirst(s, pat)
    ensures !Contains(BeforeFirst(s, pat), pat)
  {
    var i := Find(s, pat).value;
    assert s == s[..i] + s[i..i + |pat|] + s[i + |pat|..];
    var b := s[..i];
    forall j: nat
      ensures !OccursAt(b, pat, j)
    {
      if OccursAt(b, pat, j) {
        assert b[j..j + |pat|] == s[j..j + |pat|];
        assert OccursAt(s, pat, j);
      }
    }
  }

  /** The first c in s is at position k. */
  lemma FindCharAt(s: string, c: char, k: nat)
    requires k < |s| && s[k] == c
    requires forall i :: 0 <= i < k ==> s[i] != c
    ensures Find(s, [c]) == Some(k)
  {
    assert OccursAt(s, [c], k);
    forall j: nat | j < k
      ensures !OccursAt(s, [c], j)
    {
      assert s[j..j + 1][0] == s[j];
    }
  }

  /** No c in s at all. */
  lemma FindCharAbsent(s: string, c: char)
    requires forall i :: 0 <= i < |s| ==> s[i] != c
    ensures Find(s, [c]) == None
  {
    forall j: nat
      ensures !OccursAt(s, [c], j)
    {
      if j < |s| {
        assert s[j..j + 1][0] == s[j];
      }
    }
  }

  /** ASCII lower-casing, as stripos() compares. */
  function Lower(c: char): char {
    if 'A' <= c <= 'Z' then (c as int + 32) as char else c
  }

  /** stripos($s, $p) === 0: s begins with p, ignoring ASCII case. */
  predicate StartsWithIgnoringCase(s: string, p: string) {
    |p| <= |s| && forall i :: 0 <= i < |p| ==> Lower(s[i]) == Lower(p[i])
  }
}
