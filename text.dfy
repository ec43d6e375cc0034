/** Literal substring search, the only thing the tag predicates' patterns need. */
module Text {

  /** A quote character as `['"]` and `("|')` accept it. */
  predicate IsQuote(c: char)
  {
    c == '"' || c == '\''
  }

  /** `p` occurs in `s` starting at index `i`. */
  predicate OccursAt(s: string, p: string, i: nat)
  {
    i + |p| <= |s| && s[i..i + |p|] == p
  }

  /** Tries every start index from `i` on, as an unanchored pattern's `test` does. */
  function ContainsFrom(s: string, p: string, i: nat): (r: bool)
    requires i <= |s|
    ensures r <==> exists k: nat :: i <= k && OccursAt(s, p, k)
    decreases |s| - i
  {
    if i + |p| > |s| then false
    else if s[i..i + |p|] == p then assert OccursAt(s, p, i); true
    else ContainsFrom(s, p, i + 1)
  }

  /** `p` occurs somewhere in `s`. */
  function Contains(s: string, p: string): (r: bool)
    ensures r <==> exists k: nat :: OccursAt(s, p, k)
  {
    ContainsFrom(s, p, 0)
  }

  /** A slice of a slice is a slice of the whole string. */
  lemma SliceOfSlice(s: string, a: nat, b: nat, c: nat, d: nat)
    requires a <= b <= |s| && c <= d <= b - a
    ensures s[a..b][c..d] == s[a + c..a + d]
  {
    var inner := s[a..b][c..d];
    assert forall j :: 0 <= j < d - c ==> inner[j] == s[a + c + j];
  }

  /** An occurrence inside a slice is an occurrence in the whole string. */
  lemma OccursInSlice(s: string, p: string, a: nat, b: nat, k: nat)
    requires a <= b <= |s|
    requires OccursAt(s[a..b], p, k)
    ensures OccursAt(s, p, a + k)
  {
    SliceOfSlice(s, a, b, k, k + |p|);
  }

  /** A string that does not contain `p` has no slice that does. */
  lemma {:induction false} AbsentFromSlices(s: string, p: string, a: nat, b: nat)
    requires a <= b <= |s|
    requires !Contains(s, p)
    ensures !Contains(s[a..b], p)
  {
    if Contains(s[a..b], p) {
      var k: nat :| OccursAt(s[a..b], p, k);
      OccursInSlice(s, p, a, b, k);
    }
  }
}
