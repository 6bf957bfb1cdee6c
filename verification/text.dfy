/** Strings as sequences of characters: prefixes and substring search.

    `Contains` is the reference meaning of "occurs somewhere in"; `Includes`
    is the left-to-right scan that JavaScript's `String.prototype.includes`
    performs, and its contract says the two agree. */
module Text {

  /** `p` is an initial segment of `s`. */
  predicate IsPrefix(p: string, s: string) {
    |p| <= |s| && s[..|p|] == p
  }

  /** `sub` occurs in `s` starting at position `i`. */
  predicate OccursAt(s: string, sub: string, i: int) {
    0 <= i && i + |sub| <= |s| && s[i..i + |sub|] == sub
  }

  /** `sub` occurs somewhere in `s` (the empty string occurs everywhere). */
  ghost predicate Contains(s: string, sub: string) {
    exists i :: OccursAt(s, sub, i)
  }

  /** Substring search: try position 0, then search the rest of `s`. It
      answers true exactly when `sub` occurs in `s`. */
  function Includes(s: string, sub: string): (r: bool)
    ensures r <==> Contains(s, sub)
    decreases |s|
  {
    if IsPrefix(sub, s) then
      assert OccursAt(s, sub, 0);
      true
    else if |s| == 0 then false
    else
      ContainsShift(s, sub);
      Includes(s[1..], sub)
  }

  /** When `sub` does not start `s`, it occurs in `s` exactly when it occurs
      in `s` without its first character. */
  lemma ContainsShift(s: string, sub: string)
    requires |s| > 0 && !IsPrefix(sub, s)
    ensures Contains(s, sub) <==> Contains(s[1..], sub)
  {
    if Contains(s[1..], sub) {
      var i :| OccursAt(s[1..], sub, i);
      assert s[1..][i..i + |sub|] == s[i + 1..i + 1 + |sub|];
      assert OccursAt(s, sub, i + 1);
    }
    if Contains(s, sub) {
      var i :| OccursAt(s, sub, i);
      if i > 0 {
        assert s[1..][i - 1..i - 1 + |sub|] == s[i..i + |sub|];
        assert OccursAt(s[1..], sub, i - 1);
      }
    }
  }

  /** A string occurs in any string that starts with it. */
  lemma PrefixIsContained(p: string, s: string)
    requires IsPrefix(p, s)
    ensures Contains(s, p)
  {
    assert OccursAt(s, p, 0);
  }

  /** An occurrence of `sub` inside `mid` is an occurrence inside `pre + mid + post`. */
  lemma ContainedInConcat(pre: string, mid: string, post: string, sub: string)
    requires Contains(mid, sub)
    ensures Contains(pre + mid + post, sub)
  {
    var i :| OccursAt(mid, sub, i);
    var s := pre + mid + post;
    assert s[|pre| + i..|pre| + i + |sub|] == mid[i..i + |sub|];
    assert OccursAt(s, sub, |pre| + i);
  }
}
