/** What several modules need of sequences: the first place of a value, and regrouped concatenations. */
module Sequences {

  lemma Assoc<T>(a: seq<T>, b: seq<T>, c: seq<T>)
    ensures (a + b) + c == a + (b + c)
  {
  }

  /** Two steps of a conservation law make one. */
  lemma Splice<T>(before: seq<T>, into: seq<T>, out: seq<T>, middle: seq<T>,
                  laterInto: seq<T>, laterOut: seq<T>, after: seq<T>)
    requires before + into == out + middle
    requires middle + laterInto == laterOut + after
    ensures before + (into + laterInto) == (out + laterOut) + after
  {
    Assoc(before, into, laterInto);
    Assoc(out, middle, laterInto);
    Assoc(out, laterOut, after);
  }

  /** The first index that holds x, or the length. */
  function FirstIndex<P(==)>(s: seq<P>, x: P): (i: nat)
    ensures i <= |s| && x !in s[..i]
    ensures i < |s| ==> s[i] == x
  {
    if s == [] || s[0] == x then 0 else 1 + FirstIndex(s[1..], x)
  }

  lemma {:induction false} IndexIsFirst<P>(s: seq<P>, x: P, i: nat)
    requires i < |s| && s[i] == x && x !in s[..i]
    ensures FirstIndex(s, x) == i
  {
    if i > 0 {
      assert s[..i][0] == s[0];
      assert s[1..][..i - 1] == s[..i][1..];
      IndexIsFirst(s[1..], x, i - 1);
    }
  }

  lemma {:induction false} AbsentIndex<P>(s: seq<P>, x: P)
    requires x !in s
    ensures FirstIndex(s, x) == |s|
  {
    if s != [] {
      AbsentIndex(s[1..], x);
    }
  }

  function Map<A, B>(f: A -> B, s: seq<A>): (r: seq<B>)
    ensures |r| == |s| && forall i :: 0 <= i < |s| ==> r[i] == f(s[i])
  {
    seq(|s|, i requires 0 <= i < |s| => f(s[i]))
  }

  lemma MapConcat<A, B>(f: A -> B, a: seq<A>, b: seq<A>)
    ensures Map(f, a + b) == Map(f, a) + Map(f, b)
  {
  }
}
