/** Small string and option helpers shared by the whole model.
    Strings are `seq<char>`; every literal the program tests for is ASCII,
    so byte offsets in the source and character offsets here coincide. */
module Common {

  datatype Option<+T> = None | Some(value: T)

  /** `s.starts_with(p)` */
  predicate StartsWith(s: string, p: string) {
    |p| <= |s| && s[..|p|] == p
  }

  /** `s.ends_with(p)` */
  predicate EndsWith(s: string, p: string) {
    |p| <= |s| && s[|s| - |p|..] == p
  }

  /** A string that starts with `p` followed by anything starts with `p`. */
  lemma StartsWithConcat(p: string, s: string)
    ensures StartsWith(p + s, p)
  {
    assert (p + s)[..|p|] == p;
  }

  /** If `s` and `p` disagree at a position inside both, `s` does not start with `p`. */
  lemma NotStartsWithAt(s: string, p: string, k: nat)
    requires k < |p| && k < |s| && s[k] != p[k]
    ensures !StartsWith(s, p)
  {
    if |p| <= |s| {
      assert s[..|p|][k] == s[k];
    }
  }
}
