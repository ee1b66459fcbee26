/** Facts about concatenation and slicing that the scanners' proofs regroup by. */
module Sequences {

  /** Prefixes placed one after the other form a prefix. */
  lemma PrefixJoin<T>(x: seq<T>, y: seq<T>, s: seq<T>)
    requires x <= s && y <= s[|x|..]
    ensures x + y <= s
  {
    assert (x + y) == s[..|x| + |y|] by {
      assert s[..|x| + |y|] == s[..|x|] + s[|x|..][..|y|];
    }
  }

  /** A prefix made of two parts splits into a prefix and a prefix of the rest. */
  lemma PrefixSplit<T>(x: seq<T>, y: seq<T>, s: seq<T>)
    requires x + y <= s
    ensures x <= s && y <= s[|x|..]
  {
    assert s[..|x|] == (x + y)[..|x|] == x;
    assert s[|x|..][..|y|] == (x + y)[|x|..] == y;
  }

  /** Putting one element in front of a concatenation. */
  lemma ConsAssoc<T>(h: T, x: seq<T>, y: seq<T>)
    ensures [h] + (x + y) == ([h] + x) + y
  {
  }

  lemma Assoc<T>(a: seq<T>, b: seq<T>, c: seq<T>)
    ensures a + b + c == a + (b + c)
  {
  }

  /** Dropping a prefix of `a` from `a + b`. */
  lemma DropAppend<T>(a: seq<T>, b: seq<T>, k: nat)
    requires k <= |a|
    ensures (a + b)[k..] == a[k..] + b
  {
  }

  /** Regrouping five concatenated pieces around the middle one. */
  lemma Regroup<T>(a: seq<T>, b: seq<T>, c: seq<T>, d: seq<T>, e: seq<T>)
    ensures a + b + c + d + e == a + ((b + c) + (d + e))
    ensures a + b + (c + d) + e == a + ((b + c) + (d + e))
  {
  }
}
