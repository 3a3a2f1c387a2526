/** Facts about slicing and concatenation that the proofs name instead of rediscovering. */
module Sequences {
  lemma SliceAgain<T>(s: seq<T>, i: nat, j: nat)
    requires i + j <= |s|
    ensures s[i..][j..] == s[i + j..]
    ensures s[..i] + s[i..][..j] == s[..i + j]
  {
  }

  lemma CutConcat<T>(a: seq<T>, b: seq<T>, i: nat)
    requires i <= |a|
    ensures (a + b)[..i] == a[..i] && (a + b)[i..] == a[i..] + b
  {
  }

  lemma SplitConcat<T>(a: seq<T>, b: seq<T>)
    ensures (a + b)[..|a|] == a && (a + b)[|a|..] == b
  {
  }

  lemma Middle<T>(a: seq<T>, b: seq<T>, c: seq<T>)
    ensures (a + b + c)[|a|..|a| + |b|] == b
  {
  }

  lemma Associative<T>(a: seq<T>, b: seq<T>, c: seq<T>)
    ensures a + b + c == a + (b + c)
  {
  }

  lemma Whole<T>(s: seq<T>)
    ensures s[0..] == s && s[..|s|] == s && s[..0] == [] && s[|s|..] == []
    ensures s + [] == s && [] + s == s
  {
  }

  function Concat<T>(parts: seq<seq<T>>): seq<T> {
    if parts == [] then [] else parts[0] + Concat(parts[1..])
  }

  lemma ConcatDistributes<T>(a: seq<seq<T>>, b: seq<seq<T>>)
    ensures Concat(a + b) == Concat(a) + Concat(b)
  {
    if a == [] {
      Whole(b);
    } else {
      assert (a + b)[1..] == a[1..] + b;
      ConcatDistributes(a[1..], b);
      Associative(a[0], Concat(a[1..]), Concat(b));
    }
  }

  lemma ConcatAppend<T>(a: seq<seq<T>>, last: seq<T>)
    ensures Concat(a + [last]) == Concat(a) + last
  {
    ConcatDistributes(a, [last]);
    assert Concat([last]) == last + Concat([]);
  }
}
