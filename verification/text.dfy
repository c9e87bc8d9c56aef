/**
 Small facts about strings seen as a fixed prefix, a variable middle and a
 fixed suffix: the shape of every name and URL the installer builds.
 */
module Text {

  datatype Option<+T> = None | Some(value: T)

  /** `s` begins with `p`. */
  predicate StartsWith(s: string, p: string) {
    |p| <= |s| && s[..|p|] == p
  }

  /** `s` ends with `q`. */
  predicate EndsWith(s: string, q: string) {
    |q| <= |s| && s[|s| - |q|..] == q
  }

  /**
   The text between a leading `pre` and a trailing `post`, when `s` carries
   both without the two overlapping; None otherwise.
   */
  function Between(s: string, pre: string, post: string): (r: Option<string>)
    ensures r.Some? <==> |pre| + |post| <= |s| && StartsWith(s, pre) && EndsWith(s, post)
    ensures r.Some? ==> s == pre + r.value + post
  {
    if |pre| + |post| <= |s| && s[..|pre|] == pre && s[|s| - |post|..] == post then
      var mid := s[|pre|..|s| - |post|];
      assert s == s[..|pre|] + mid + s[|s| - |post|..];
      Some(mid)
    else
      None
  }

  /** A concatenation begins with its left part and ends with its right part. */
  lemma ConcatAffixes(a: string, b: string)
    ensures StartsWith(a + b, a) && EndsWith(a + b, b)
  {
    assert (a + b)[..|a|] == a;
    assert (a + b)[|a + b| - |b|..] == b;
  }

  /** A suffix of a suffix is a suffix. */
  lemma EndsWithTransitive(s: string, t: string, u: string)
    requires EndsWith(s, t) && EndsWith(t, u)
    ensures EndsWith(s, u)
  {
    assert s[|s| - |u|..] == s[|s| - |t|..][|t| - |u|..];
  }

  /** Wrapping a middle in `pre` and `post` and taking it out again gives it back. */
  lemma {:induction false} BetweenConcat(pre: string, mid: string, post: string)
    ensures Between(pre + mid + post, pre, post) == Some(mid)
  {
    var s := pre + mid + post;
    assert s[..|pre|] == pre;
    assert s[|s| - |post|..] == post;
    assert s[|pre|..|s| - |post|] == mid;
  }
}
