/** Searching strings for a separator character, as Python's `split` and
    the signature's `#` separators need. */
module Text {

  /** The index of the first `c` in `s`, or `|s|` when there is none. */
  function IndexOf(s: string, c: char): (n: nat)
    ensures n <= |s|
    ensures forall i :: 0 <= i < n ==> s[i] != c
    ensures n < |s| ==> s[n] == c
  {
    if s == [] || s[0] == c then 0 else 1 + IndexOf(s[1..], c)
  }

  /** Text free of `c`, then `c`: the first `c` is the one after it. */
  lemma IndexOfJoin(p: string, c: char, u: string)
    requires c !in p
    ensures IndexOf(p + [c] + u, c) == |p|
  {
    var s := p + [c] + u;
    assert s[|p|] == c;
    assert forall i :: 0 <= i < |p| ==> s[i] == p[i] && p[i] != c;
  }

  /** Text before and after the first `c`, when `c` does not occur before
      it, decides both parts. */
  lemma SplitAtFirst(p: string, u: string, q: string, v: string, c: char)
    requires c !in p && c !in q
    requires p + [c] + u == q + [c] + v
    ensures p == q && u == v
  {
    var s := p + [c] + u;
    IndexOfJoin(p, c, u);
    IndexOfJoin(q, c, v);
    assert p == s[..|p|] && q == (q + [c] + v)[..|q|];
    assert u == s[|p| + 1..] && v == (q + [c] + v)[|q| + 1..];
  }
}
