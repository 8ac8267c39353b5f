/**
 The two string operations the ledger relies on: Python's substring test
 `p in s` and Python's `s.replace(p, "")`, which deletes every occurrence of
 `p` found by a left-to-right scan.
 */
module Text {

  /** `p` occurs in `s` starting at index `i`. */
  predicate OccursAt(s: string, p: string, i: int) {
    0 <= i && i + |p| <= |s| && s[i..i + |p|] == p
  }

  /** Python's `p in s`: `p` occurs somewhere in `s`. */
  predicate Contains(s: string, p: string) {
    exists i | 0 <= i <= |s| :: OccursAt(s, p, i)
  }

  /** No proper prefix of `p` is also a suffix of `p`: two occurrences of `p` can never overlap. */
  predicate BorderFree(p: string) {
    forall j :: 0 < j < |p| ==> p[..j] != p[|p| - j..]
  }

  /** Python's `s.replace(p, "")`: scan left to right, drop each occurrence of `p`, resume after it. */
  function StripAll(s: string, p: string): (r: string)
    requires |p| > 0
    ensures |r| <= |s|
    decreases |s|
  {
    if |s| < |p| then s
    else if s[..|p|] == p then StripAll(s[|p|..], p)
    else [s[0]] + StripAll(s[1..], p)
  }

  /** If `s` has no occurrence of `p`, neither has any suffix of `s`. */
  lemma NotContainsTail(s: string, p: string)
    requires |s| > 0
    requires !Contains(s, p)
    ensures !Contains(s[1..], p)
  {
    forall i | OccursAt(s[1..], p, i)
      ensures false
    {
      assert s[i + 1..i + 1 + |p|] == s[1..][i..i + |p|];
      assert OccursAt(s, p, i + 1);
    }
  }

  /** Deleting a pattern that does not occur leaves the string unchanged. */
  lemma {:induction false} StripAllWithoutOccurrence(s: string, p: string)
    requires |p| > 0
    requires !Contains(s, p)
    ensures StripAll(s, p) == s
    decreases |s|
  {
    if |s| >= |p| {
      assert !OccursAt(s, p, 0);
      NotContainsTail(s, p);
      StripAllWithoutOccurrence(s[1..], p);
      assert [s[0]] + s[1..] == s;
    }
  }

  /** A border-free `p` cannot occur at the front of `a + p` when `a` is shorter than `p`: it would have to overlap itself. */
  lemma StraddleImpossible(a: string, p: string)
    requires 0 < |a| < |p|
    requires BorderFree(p)
    ensures (a + p)[..|p|] != p
  {
    var j := |p| - |a|;
    assert p[..j] != p[|p| - j..];
    assert (a + p)[..|p|][|a|..] == p[..j];
  }

  /**
   Recovering a name from a suffixed column name: deleting every occurrence of a
   border-free `p` from `a + p` gives back `a` exactly, when `a` itself does not contain `p`.
   */
  lemma {:induction false} StripSuffix(a: string, p: string)
    requires |p| > 0
    requires BorderFree(p)
    requires !Contains(a, p)
    ensures StripAll(a + p, p) == a
    decreases |a|
  {
    if |a| == 0 {
      assert a + p == p;
      assert p[|p|..] == [];
    } else {
      if |a| >= |p| {
        assert !OccursAt(a, p, 0);
        assert (a + p)[..|p|] == a[0..0 + |p|];
      } else {
        StraddleImpossible(a, p);
      }
      NotContainsTail(a, p);
      StripSuffix(a[1..], p);
      assert (a + p)[1..] == a[1..] + p;
      assert [a[0]] + a[1..] == a;
    }
  }
}
