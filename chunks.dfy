/** `divide_chunks`: the list of records cut into consecutive groups of a fixed size. */
module Chunks {
  import opened Seqs
  import opened Results

  /** The groups of `n` consecutive records, first to last: a recursive reference
      definition of what the generator yields for a positive step. */
  function Chunked<T>(records: seq<T>, n: nat): seq<seq<T>>
    requires n > 0
    decreases |records|
  {
    if |records| == 0 then []
    else if |records| <= n then [records]
    else [records[..n]] + Chunked(records[n..], n)
  }

  /** Euclidean division has one quotient. */
  lemma DivUnique(x: int, n: int, q: int, r: int)
    requires n > 0 && 0 <= r < n && x == q * n + r
    ensures x / n == q
  {
    var d := q - x / n;
    assert d * n == x % n - r;
  }

  /** One more group of `n` is one more step of the ceiling quotient. */
  lemma CeilDivStep(len: nat, n: nat)
    requires n > 0 && len > 0
    ensures CeilDiv(len, n) == 1 + if len <= n then 0 else CeilDiv(len - n, n)
  {
    var x := len - 1;
    var q, r := x / n, x % n;
    DivUnique(x + n, n, q + 1, r);
    if len <= n {
      DivUnique(x, n, 0, x);
    }
  }

  /** There are more than `c` groups of `n` in `len` elements exactly when `len > c * n`. */
  lemma {:induction false} CeilDivAbove(len: nat, n: nat, c: nat)
    requires n > 0
    ensures CeilDiv(len, n) > c <==> len > c * n
  {
    if len == 0 {
      assert CeilDiv(0, n) == (n - 1) / n == 0;
    } else {
      CeilDivStep(len, n);
      if c > 0 && len > n {
        CeilDivAbove(len - n, n, c - 1);
        assert c * n == (c - 1) * n + n;
      } else if c > 0 {
        assert c * n >= n;
      }
    }
  }

  /** There are at least ten chunks exactly when there are more than `9 * n` records. */
  lemma TenChunks(len: nat, n: nat)
    requires n > 0
    ensures CeilDiv(len, n) >= 10 <==> len > 9 * n
  {
    CeilDivAbove(len, n, 9);
  }

  /** There are `ceil(len / n)` chunks. */
  lemma {:induction false} ChunkedCount<T>(records: seq<T>, n: nat)
    requires n > 0
    ensures |Chunked(records, n)| == CeilDiv(|records|, n)
    decreases |records|
  {
    if |records| == 0 {
      assert CeilDiv(0, n) == (n - 1) / n == 0;
    } else {
      CeilDivStep(|records|, n);
      if |records| > n {
        ChunkedCount(records[n..], n);
      }
    }
  }

  /** The chunks, put back together, are the records. */
  lemma {:induction false} ChunkedFlatten<T>(records: seq<T>, n: nat)
    requires n > 0
    ensures Flatten(Chunked(records, n)) == records
    decreases |records|
  {
    if |records| > n {
      var rest := records[n..];
      ChunkedFlatten(rest, n);
      assert Chunked(records, n)[1..] == Chunked(rest, n);
      assert records[..n] + rest == records;
    } else if |records| > 0 {
      assert Chunked(records, n)[1..] == [];
    }
  }

  /** Every chunk but the last has `n` records; the last has at least one and at most `n`. */
  lemma {:induction false} ChunkedSizes<T>(records: seq<T>, n: nat)
    requires n > 0
    ensures var c := Chunked(records, n);
      && (forall k :: 0 <= k < |c| - 1 ==> |c[k]| == n)
      && (|c| > 0 ==> 0 < |c[|c| - 1]| <= n)
    decreases |records|
  {
    if |records| > n {
      var rest := records[n..];
      ChunkedSizes(rest, n);
      assert Chunked(records, n) == [records[..n]] + Chunked(rest, n);
    }
  }

  lemma MulStep(m: nat, n: nat)
    requires m > 0
    ensures m * n == (m - 1) * n + n
  {
  }

  /** A slice taken after dropping the first `n` records, shifted back by `n`. */
  lemma SliceShift<T>(records: seq<T>, n: nat, lo: nat)
    requires n <= |records|
    ensures Slice(records[n..], lo, lo + n) == Slice(records, lo + n, lo + n + n)
  {
  }

  /** Chunk `k` is `records[k * n:k * n + n]`, and it starts inside the records. */
  lemma {:induction false} ChunkedAt<T>(records: seq<T>, n: nat, k: nat)
    requires n > 0 && k < |Chunked(records, n)|
    ensures k * n < |records| && Chunked(records, n)[k] == Slice(records, k * n, k * n + n)
    decreases k
  {
    if k > 0 {
      var rest := records[n..];
      assert Chunked(records, n)[k] == Chunked(rest, n)[k - 1];
      ChunkedAt(rest, n, k - 1);
      MulStep(k, n);
      SliceShift(records, n, (k - 1) * n);
    }
  }

  /** Chunk `k` exists exactly when it would start inside the records. */
  lemma ChunkedExists<T>(records: seq<T>, n: nat, k: nat)
    requires n > 0
    ensures k < |Chunked(records, n)| <==> k * n < |records|
  {
    ChunkedCount(records, n);
    CeilDivAbove(|records|, n, k);
  }

  /** The first chunk followed by the first `lo` records after it are the first `n + lo` records. */
  lemma PrefixJoin<T>(records: seq<T>, n: nat, lo: nat)
    requires n < |records|
    ensures records[..n] + records[n..][..Min(lo, |records| - n)] == records[..Min(lo + n, |records|)]
  {
  }

  /** The first `m` chunks, put back together, are the first `m * n` records (or all of them). */
  lemma {:induction false} ChunkedPrefix<T>(records: seq<T>, n: nat, m: nat)
    requires n > 0 && m <= |Chunked(records, n)|
    ensures Flatten(Chunked(records, n)[..m]) == records[..Min(m * n, |records|)]
    decreases m
  {
    var c := Chunked(records, n);
    if m == 0 {
      assert c[..0] == [];
    } else if |records| <= n {
      assert c[..m] == [records];
      assert Flatten([records]) == records + Flatten([]);
      MulStep(m, n);
    } else {
      var rest := records[n..];
      assert c[..m] == [c[0]] + Chunked(rest, n)[..m - 1];
      ChunkedPrefix(rest, n, m - 1);
      FlattenConcat([c[0]], Chunked(rest, n)[..m - 1]);
      assert Flatten([c[0]]) == c[0] by {
        assert [c[0]][1..] == [];
      }
      MulStep(m, n);
      PrefixJoin(records, n, (m - 1) * n);
    }
  }

  /** `list(divide_chunks(records, n))`: the slices `records[i:i + n]` for `i` in
      `range(0, len(records), n)`. A step of zero makes `range` raise; a negative step
      from 0 towards a non-negative end yields no index at all. */
  method DivideChunks<T>(records: seq<T>, n: int) returns (r: Result<seq<seq<T>>>)
    ensures r.Failure? <==> n == 0
    ensures r.Failure? ==> r.error == RangeStepZero
    ensures n < 0 ==> r == Success([])
    ensures n > 0 ==> r == Success(Chunked(records, n))
    ensures n > 0 ==> r.Success? && |r.value| == CeilDiv(|records|, n)
    ensures r.Success? ==> Flatten(r.value) == if n > 0 then records else []
    ensures r.Success? ==> forall k :: 0 <= k < |r.value| - 1 ==> |r.value[k]| == n
    ensures r.Success? && |r.value| > 0 ==> 0 < |r.value[|r.value| - 1]| <= n
  {
    if n == 0 {
      return Failure(RangeStepZero);
    } else if n < 0 {
      return Success([]);
    }
    var chunks := SlicesOf(records, n);
    ChunkedCount(records, n);
    ChunkedFlatten(records, n);
    ChunkedSizes(records, n);
    return Success(chunks);
  }

  /** The generator of `divide_chunks` for a positive step, drained into a list. */
  method SlicesOf<T>(records: seq<T>, n: nat) returns (chunks: seq<seq<T>>)
    requires n > 0
    ensures chunks == Chunked(records, n)
  {
    chunks := [];
    var i := 0;
    while i < |records|
      invariant 0 <= i
      invariant chunks + Chunked(Drop(records, i), n) == Chunked(records, n)
      decreases |records| - i
    {
      var chunk := Slice(records, i, i + n);
      var later := Chunked(Drop(records, i + n), n);
      assert Chunked(Drop(records, i), n) == [chunk] + later by {
        var rest := records[i..];
        assert Drop(records, i) == rest;
        if |rest| <= n {
          assert chunk == rest;
          assert Drop(records, i + n) == [];
        } else {
          assert chunk == rest[..n];
          assert Drop(records, i + n) == rest[n..];
        }
      }
      assert (chunks + [chunk]) + later == chunks + ([chunk] + later);
      chunks := chunks + [chunk];
      i := i + n;
    }
    assert Drop(records, i) == [];
    assert Chunked(Drop(records, i), n) == [];
  }
}
