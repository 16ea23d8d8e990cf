/** Sequence helpers shared by the models. */
module Seqs {

  /** Keeps the elements of `s` that satisfy `p`, in order (`Array.prototype.filter`). */
  function Filter<T>(p: T -> bool, s: seq<T>): (r: seq<T>)
    ensures |r| <= |s|
    ensures forall x :: x in r ==> x in s && p(x)
    ensures forall x :: x in s && p(x) ==> x in r
  {
    if s == [] then [] else (if p(s[0]) then [s[0]] else []) + Filter(p, s[1..])
  }

  /** `Filter` distributes over concatenation, so it keeps the input order. */
  lemma {:induction false} FilterAppend<T>(p: T -> bool, a: seq<T>, b: seq<T>)
    ensures Filter(p, a + b) == Filter(p, a) + Filter(p, b)
  {
    if a == [] {
      assert a + b == b;
    } else {
      assert (a + b)[0] == a[0] && (a + b)[1..] == a[1..] + b;
      FilterAppend(p, a[1..], b);
    }
  }

  /** A sequence is the concatenation of its pieces around two cut points. */
  lemma SliceThree<T>(s: seq<T>, a: nat, b: nat)
    requires a <= b <= |s|
    ensures s == s[..a] + s[a..b] + s[b..]
  {
    var t := s[..a] + s[a..b] + s[b..];
    assert |t| == |s|;
    forall i | 0 <= i < |s| ensures t[i] == s[i] {
      if i < a {
      } else if i < b {
        assert t[i] == s[a..b][i - a];
      } else {
        assert t[i] == s[b..][i - b];
      }
    }
  }

  /** A slice of a slice is a slice of the whole. */
  lemma SliceOfSlice<T>(s: seq<T>, i: nat, j: nat, a: nat, b: nat)
    requires i <= j <= |s| && a <= b <= j - i
    ensures s[i..j][a..b] == s[i + a..i + b]
  {
    var t := s[i..j][a..b];
    forall k | 0 <= k < b - a ensures t[k] == s[i + a + k] {
      assert t[k] == s[i..j][a + k];
    }
  }

  /** The middle piece of a three-way concatenation, cut back out. */
  lemma MiddleOfConcat<T>(x: seq<T>, y: seq<T>, z: seq<T>)
    ensures (x + y + z)[|x|..|x| + |y|] == y
  {
    var t := (x + y + z)[|x|..|x| + |y|];
    forall k | 0 <= k < |y| ensures t[k] == y[k] {
      assert t[k] == (x + y + z)[|x| + k];
    }
  }

  lemma AppendAssoc<T>(a: seq<T>, b: seq<T>, c: seq<T>, d: seq<T>)
    ensures (a + b + c) + d == a + (b + c + d)
  {
  }
}
