/** The Python built-ins the pipeline relies on, stated over sequences:
    clamped slicing, `zip`, flattening a list of lists, and ceiling division. */
module Seqs {

  function Min(a: int, b: int): (m: int)
    ensures m <= a && m <= b && (m == a || m == b)
  {
    if a <= b then a else b
  }

  /** The number of groups of `n` that `len` elements fill, the last one possibly partly. */
  function CeilDiv(len: nat, n: nat): nat
    requires n > 0
  {
    (len + n - 1) / n
  }

  /** Python's `s[lo:hi]` for `0 <= lo <= hi`: bounds past the end are clamped to it. */
  function Slice<T>(s: seq<T>, lo: nat, hi: nat): (r: seq<T>)
    requires lo <= hi
    ensures |r| == if |s| <= lo then 0 else Min(hi, |s|) - lo
  {
    s[Min(lo, |s|)..Min(hi, |s|)]
  }

  /** Python's `s[lo:]` for `0 <= lo`. */
  function Drop<T>(s: seq<T>, lo: nat): (r: seq<T>)
    ensures |r| == if |s| <= lo then 0 else |s| - lo
  {
    s[Min(lo, |s|)..]
  }

  /** Python's `zip(a, b)`: pairs up elements position by position and stops at the shorter input. */
  function Zip<A, B>(a: seq<A>, b: seq<B>): (z: seq<(A, B)>)
    ensures |z| == Min(|a|, |b|)
    ensures forall k :: 0 <= k < |z| ==> z[k] == (a[k], b[k])
  {
    if |a| == 0 || |b| == 0 then [] else [(a[0], b[0])] + Zip(a[1..], b[1..])
  }

  /** The elements of the inner sequences, in order. */
  function Flatten<T>(ss: seq<seq<T>>): seq<T>
  {
    if ss == [] then [] else ss[0] + Flatten(ss[1..])
  }

  lemma {:induction false} FlattenConcat<T>(a: seq<seq<T>>, b: seq<seq<T>>)
    ensures Flatten(a + b) == Flatten(a) + Flatten(b)
  {
    if a == [] {
      assert a + b == b;
    } else {
      assert (a + b)[1..] == a[1..] + b;
      FlattenConcat(a[1..], b);
    }
  }

  /** `f` applied to every element, in order. */
  function Map<A, B>(f: A -> B, s: seq<A>): (r: seq<B>)
    ensures |r| == |s|
    ensures forall j :: 0 <= j < |s| ==> r[j] == f(s[j])
  {
    seq(|s|, j requires 0 <= j < |s| => f(s[j]))
  }

  /** Mapping distributes over concatenation. */
  lemma MapConcat<A, B>(f: A -> B, a: seq<A>, b: seq<A>)
    ensures Map(f, a + b) == Map(f, a) + Map(f, b)
  {
    forall j | 0 <= j < |a + b|
      ensures Map(f, a + b)[j] == (Map(f, a) + Map(f, b))[j]
    {
      if j < |a| {
        assert (a + b)[j] == a[j];
      } else {
        assert (a + b)[j] == b[j - |a|];
      }
    }
  }
}
