/** ASCII case folding and the case-insensitive substring test the user search uses. */
module Ascii {

  function LowerChar(c: char): (d: char)
    ensures 'A' <= c <= 'Z' ==> d as int == c as int + 32
    ensures !('A' <= c <= 'Z') ==> d == c
  {
    if 'A' <= c <= 'Z' then (c as int + 32) as char else c
  }

  function LowerString(s: string): (r: string)
    ensures |r| == |s|
    ensures forall i :: 0 <= i < |s| ==> r[i] == LowerChar(s[i])
  {
    seq(|s|, i requires 0 <= i < |s| => LowerChar(s[i]))
  }

  /** `n` occurs in `h` at position `i`, ignoring ASCII case. */
  ghost predicate OccursAt(h: string, n: string, i: int) {
    0 <= i && i + |n| <= |h| && LowerString(h[i..i + |n|]) == LowerString(n)
  }

  ghost predicate Occurs(h: string, n: string) {
    exists i :: OccursAt(h, n, i)
  }

  predicate StartsWithFold(h: string, n: string) {
    |n| <= |h| && LowerString(h[..|n|]) == LowerString(n)
  }

  /** The search: try each starting position of `h` in turn; a query longer than the text is never found. */
  predicate ContainsFold(h: string, n: string)
    ensures ContainsFold(h, n) ==> |n| <= |h|
    decreases |h|
  {
    StartsWithFold(h, n) || (h != [] && ContainsFold(h[1..], n))
  }

  /** The search succeeds exactly when the query occurs somewhere in the text, ignoring ASCII case. */
  lemma {:induction false} ContainsFoldIff(h: string, n: string)
    ensures ContainsFold(h, n) <==> Occurs(h, n)
    decreases |h|
  {
    if h != [] {
      ContainsFoldIff(h[1..], n);
      if Occurs(h[1..], n) {
        var i :| OccursAt(h[1..], n, i);
        assert h[1..][i..i + |n|] == h[i + 1..i + 1 + |n|];
        assert OccursAt(h, n, i + 1);
      }
      if Occurs(h, n) && !StartsWithFold(h, n) {
        var i :| OccursAt(h, n, i);
        if i != 0 {
          assert h[1..][i - 1..i - 1 + |n|] == h[i..i + |n|];
          assert OccursAt(h[1..], n, i - 1);
        }
      }
    }
    if StartsWithFold(h, n) {
      assert h[0..|n|] == h[..|n|];
      assert OccursAt(h, n, 0);
    }
    if h == [] && Occurs(h, n) {
      var i :| OccursAt(h, n, i);
      assert |n| == 0 && h[..0] == h[i..i];
    }
  }

  /** The empty query occurs in every text. */
  lemma ContainsEmpty(h: string)
    ensures ContainsFold(h, "")
  {
    assert StartsWithFold(h, "");
  }
}
