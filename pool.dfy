/** The per-task part of `main`: the chunk list cut into five worker slots, each slot
    translated, and the slot results transposed and unpacked into two output lists. */
module Pool {
  import opened Seqs
  import opened Results
  import opened Chunks
  import opened Translate

  /** `(data_chunks[0:2], data_chunks[2:4], data_chunks[4:6], data_chunks[6:8], data_chunks[8:])`. */
  function PoolChunks<C>(dataChunks: seq<C>): (slots: seq<seq<C>>)
    ensures |slots| == 5
    ensures forall k :: 0 <= k < 4 ==>
      |slots[k]| == if |dataChunks| <= 2 * k then 0 else Min(2, |dataChunks| - 2 * k)
    ensures |slots[4]| == if |dataChunks| <= 8 then 0 else |dataChunks| - 8
    ensures forall k, j :: 0 <= k < 5 && 0 <= j < |slots[k]| ==>
      2 * k + j < |dataChunks| && slots[k][j] == dataChunks[2 * k + j]
  {
    [Slice(dataChunks, 0, 2), Slice(dataChunks, 2, 4), Slice(dataChunks, 4, 6), Slice(dataChunks, 6, 8),
     Drop(dataChunks, 8)]
  }

  /** The slots, put back together in order, are the chunk list: each chunk is in exactly one slot. */
  lemma PoolChunksCover<C>(dataChunks: seq<C>)
    ensures Flatten(PoolChunks(dataChunks)) == dataChunks
  {
    var s := PoolChunks(dataChunks);
    var d := dataChunks;
    var a, b := Min(2, |d|), Min(4, |d|);
    var c, e := Min(6, |d|), Min(8, |d|);
    assert s == [d[..a], d[a..b], d[b..c], d[c..e], d[e..]];
    calc {
      Flatten(s);
      d[..a] + Flatten(s[1..]);
      d[..a] + (d[a..b] + Flatten(s[2..]));
      d[..a] + (d[a..b] + (d[b..c] + Flatten(s[3..])));
      d[..a] + (d[a..b] + (d[b..c] + (d[c..e] + Flatten(s[4..]))));
      d[..a] + (d[a..b] + (d[b..c] + (d[c..e] + (d[e..] + Flatten(s[5..])))));
      { assert s[5..] == []; }
      d[..a] + d[a..b] + d[b..c] + d[c..e] + d[e..];
      d;
    }
  }

  /** The length of the shortest row. */
  function MinLength<T>(rows: seq<seq<T>>): (m: nat)
    requires |rows| > 0
    ensures forall i :: 0 <= i < |rows| ==> m <= |rows[i]|
    ensures exists i :: 0 <= i < |rows| && m == |rows[i]|
  {
    if |rows| == 1 then |rows[0]| else Min(|rows[0]|, MinLength(rows[1..]))
  }

  /** Rows of the same lengths have the same shortest length. */
  lemma MinLengthOfShape<T, U>(rows: seq<seq<T>>, others: seq<seq<U>>)
    requires |rows| == |others| > 0
    requires forall i :: 0 <= i < |rows| ==> |rows[i]| == |others[i]|
    ensures MinLength(rows) == MinLength(others)
  {
    var i :| 0 <= i < |rows| && MinLength(rows) == |rows[i]|;
    var j :| 0 <= j < |others| && MinLength(others) == |others[j]|;
    assert MinLength(rows) <= |rows[j]|;
    assert MinLength(others) <= |others[i]|;
  }

  /** `zip(*rows)`: as many columns as the shortest row is long; column `k` holds
      element `k` of every row, in row order. No rows at all give no columns. */
  function ZipAll<T>(rows: seq<seq<T>>): (cols: seq<seq<T>>)
    ensures |rows| == 0 ==> cols == []
    ensures |rows| > 0 ==> |cols| == MinLength(rows)
    ensures forall k :: 0 <= k < |cols| ==>
      |cols[k]| == |rows| && forall i :: 0 <= i < |rows| ==> k < |rows[i]| && cols[k][i] == rows[i][k]
  {
    if |rows| == 0 then [] else
      var m := MinLength(rows);
      seq(m, k requires 0 <= k < m => seq(|rows|, i requires 0 <= i < |rows| => rows[i][k]))
  }

  /** `a, b = xs`: anything but exactly two elements raises a `ValueError`. */
  function Unpack2<T>(xs: seq<T>): (r: Result<(T, T)>)
    ensures r.Success? <==> |xs| == 2
    ensures r.Success? ==> r.value.0 == xs[0] && r.value.1 == xs[1]
    ensures r.Failure? ==> r.error == UnpackMismatch(2, |xs|)
  {
    if |xs| == 2 then Success((xs[0], xs[1])) else Failure(UnpackMismatch(2, |xs|))
  }

  /** Transposing the slots gives two columns when there are at least ten chunks, one when there
      are nine and none otherwise; the entry of column `k` from slot `i` is chunk `2 * i + k`,
      so no chunk from the eleventh on reaches a column. */
  lemma {:induction false} ZipOfPool<C>(dataChunks: seq<C>)
    ensures var cols := ZipAll(PoolChunks(dataChunks));
      && |cols| == (if |dataChunks| >= 10 then 2 else if |dataChunks| == 9 then 1 else 0)
      && forall k, i :: 0 <= k < |cols| && 0 <= i < 5 ==> 2 * i + k < 10 && cols[k][i] == dataChunks[2 * i + k]
  {
    var s := PoolChunks(dataChunks);
    var n := |dataChunks|;
    MinLengthOfFive(s);
    if n >= 10 {
      assert |s[0]| == |s[1]| == |s[2]| == |s[3]| == 2 <= |s[4]|;
    } else if n == 9 {
      assert |s[0]| == |s[1]| == |s[2]| == |s[3]| == 2 && |s[4]| == 1;
    } else {
      assert |s[4]| == 0;
    }
  }

  /** The shortest of five rows. */
  lemma MinLengthOfFive<T>(rows: seq<seq<T>>)
    requires |rows| == 5
    ensures MinLength(rows) == Min(|rows[0]|, Min(|rows[1]|, Min(|rows[2]|, Min(|rows[3]|, |rows[4]|))))
  {
    assert rows[1..][1..][1..][1..] == [rows[4]];
  }

  /** With at least ten chunks the two unpacked outputs are chunks 0, 2, 4, 6, 8 and chunks
      1, 3, 5, 7, 9; with fewer the unpacking fails, having seen one value for nine chunks
      and none for fewer. */
  lemma PoolUnpack<C>(dataChunks: seq<C>)
    ensures var d := dataChunks;
      Unpack2(ZipAll(PoolChunks(d))) ==
        if |d| >= 10 then Success(([d[0], d[2], d[4], d[6], d[8]], [d[1], d[3], d[5], d[7], d[9]]))
        else Failure(UnpackMismatch(2, if |d| == 9 then 1 else 0))
  {
    var d := dataChunks;
    var cols := ZipAll(PoolChunks(d));
    ZipOfPool(d);
    if |d| >= 10 {
      assert cols[0] == [d[0], d[2], d[4], d[6], d[8]];
      assert cols[1] == [d[1], d[3], d[5], d[7], d[9]];
    }
  }

  /** Chunks from the eleventh on do not affect the two outputs. */
  lemma PoolIgnoresTail<C>(dataChunks: seq<C>, other: seq<C>)
    requires |dataChunks| >= 10 && |other| >= 10
    requires dataChunks[..10] == other[..10]
    ensures Unpack2(ZipAll(PoolChunks(dataChunks))) == Unpack2(ZipAll(PoolChunks(other)))
  {
    PoolUnpack(dataChunks);
    PoolUnpack(other);
    assert forall k :: 0 <= k < 10 ==> dataChunks[k] == dataChunks[..10][k] == other[k];
  }

  /** Slot results that translate the slots entry by entry transpose into translated chunks:
      the entry of column `k` from slot `i` is chunk `2 * i + k` translated. */
  lemma TranslatedPoolColumns(backend: string -> string, dataChunks: seq<seq<Record>>, results: seq<seq<seq<Dict>>>)
    requires |results| == 5
    requires forall m :: 0 <= m < 5 ==> |results[m]| == |PoolChunks(dataChunks)[m]|
    requires forall m, j :: 0 <= m < 5 && 0 <= j < |results[m]| ==>
      results[m][j] == TranslatedChunk(backend, PoolChunks(dataChunks)[m][j])
    ensures |ZipAll(results)| == (if |dataChunks| >= 10 then 2 else if |dataChunks| == 9 then 1 else 0)
    ensures forall k, i :: 0 <= k < |ZipAll(results)| && 0 <= i < 5 ==>
      2 * i + k < |dataChunks| && ZipAll(results)[k][i] == TranslatedChunk(backend, dataChunks[2 * i + k])
  {
    MinLengthOfShape(results, PoolChunks(dataChunks));
    ZipOfPool(dataChunks);
  }

  /** Lines 103-108 of `main`: the five slots, `translate_chunks` mapped over them in order
      (the process pool's `map`), then `zip(*...)` unpacked into two outputs: the first holds
      chunks 0, 2, 4, 6, 8 translated, the second chunks 1, 3, 5, 7, 9. */
  method TranslatePool(backend: string -> string, dataChunks: seq<seq<Record>>)
    returns (r: Result<(seq<seq<Dict>>, seq<seq<Dict>>)>)
    ensures r.Success? <==> |dataChunks| >= 10
    ensures r.Failure? ==> r.error == UnpackMismatch(2, if |dataChunks| == 9 then 1 else 0)
    ensures r.Success? ==> |r.value.0| == 5 && |r.value.1| == 5
    ensures r.Success? ==> forall k :: 0 <= k < 5 ==>
      && r.value.0[k] == TranslatedChunk(backend, dataChunks[2 * k])
      && r.value.1[k] == TranslatedChunk(backend, dataChunks[2 * k + 1])
  {
    var slots := PoolChunks(dataChunks);
    var results: seq<seq<seq<Dict>>> := [];
    for k := 0 to |slots|
      invariant |results| == k
      invariant forall m :: 0 <= m < k ==> |results[m]| == |slots[m]|
      invariant forall m, j :: 0 <= m < k && 0 <= j < |slots[m]| ==>
        results[m][j] == TranslatedChunk(backend, slots[m][j])
    {
      var translated := TranslateChunks(backend, slots[k]);
      results := results + [translated];
    }
    TranslatedPoolColumns(backend, dataChunks, results);
    r := Unpack2(ZipAll(results));
  }

  /** The elements of `a` and `b` taken alternately, `a` first, for as long as both last. */
  function Interleave<T>(a: seq<T>, b: seq<T>): (r: seq<T>)
    ensures |r| == 2 * Min(|a|, |b|)
    ensures forall k :: 0 <= k < Min(|a|, |b|) ==> r[2 * k] == a[k] && r[2 * k + 1] == b[k]
  {
    if a == [] || b == [] then [] else [a[0], b[0]] + Interleave(a[1..], b[1..])
  }

  /** Translating chunk by chunk and joining is translating the joined chunks. */
  lemma {:induction false} TranslatedChunkFlatten(backend: string -> string, chunks: seq<seq<Record>>)
    ensures Flatten(seq(|chunks|, i requires 0 <= i < |chunks| => TranslatedChunk(backend, chunks[i])))
         == TranslatedChunk(backend, Flatten(chunks))
  {
    var ts := seq(|chunks|, i requires 0 <= i < |chunks| => TranslatedChunk(backend, chunks[i]));
    if chunks != [] {
      var head, tail := chunks[0], chunks[1..];
      var rest := seq(|tail|, i requires 0 <= i < |tail| => TranslatedChunk(backend, tail[i]));
      assert ts[1..] == rest;
      TranslatedChunkFlatten(backend, tail);
      var joined := Flatten(tail);
      assert Flatten(chunks) == head + joined;
      MapConcat((record: Record) => TranslateRecord(backend, record), head, joined);
    }
  }

  lemma InterleaveFive<T>(a: seq<T>, b: seq<T>)
    requires |a| == 5 && |b| == 5
    ensures Interleave(a, b) == [a[0], b[0], a[1], b[1], a[2], b[2], a[3], b[3], a[4], b[4]]
  {
    var r := Interleave(a, b);
    assert r[0] == a[0] && r[1] == b[0];
    assert r[2] == a[1] && r[3] == b[1];
    assert r[4] == a[2] && r[5] == b[2];
    assert r[6] == a[3] && r[7] == b[3];
    assert r[8] == a[4] && r[9] == b[4];
  }

  /** The two output lists, taken alternately, are the first ten chunks translated in order. */
  lemma InterleavedColumns(backend: string -> string, dataChunks: seq<seq<Record>>, out1: seq<seq<Dict>>, out2: seq<seq<Dict>>)
    requires |dataChunks| >= 10 && |out1| == 5 && |out2| == 5
    requires forall k :: 0 <= k < 5 ==>
      out1[k] == TranslatedChunk(backend, dataChunks[2 * k]) && out2[k] == TranslatedChunk(backend, dataChunks[2 * k + 1])
    ensures Flatten(Interleave(out1, out2)) == TranslatedChunk(backend, Flatten(dataChunks[..10]))
  {
    var first := dataChunks[..10];
    var tc := seq(10, i requires 0 <= i < 10 => TranslatedChunk(backend, first[i]));
    assert Interleave(out1, out2) == tc by {
      InterleaveFive(out1, out2);
    }
    TranslatedChunkFlatten(backend, first);
  }

  /** The loop body of `main` for one task, without reading and writing files: `data` is the
      task's records, `size` the chunk size given on the command line. The outputs hold chunks
      0, 2, 4, 6, 8 and 1, 3, 5, 7, 9 translated (`ChunkedAt` gives their record positions);
      together they hold the first `10 * size` records translated, in order, and records past
      those are dropped. */
  method TranslateTask(backend: string -> string, data: seq<Record>, size: int)
    returns (r: Result<(seq<seq<Dict>>, seq<seq<Dict>>)>)
    ensures r.Success? <==> size > 0 && |data| > 9 * size
    ensures r.Success? <==> size > 0 && CeilDiv(|data|, size) >= 10
    ensures size == 0 ==> r == Failure(RangeStepZero)
    ensures size < 0 ==> r == Failure(UnpackMismatch(2, 0))
    ensures size > 0 && r.Failure? ==>
      r.error == UnpackMismatch(2, if CeilDiv(|data|, size) == 9 then 1 else 0)
    ensures r.Success? ==> size > 0 && |Chunked(data, size)| >= 10
    ensures r.Success? ==> |r.value.0| == 5 && |r.value.1| == 5
    ensures r.Success? && size > 0 && |Chunked(data, size)| >= 10 ==> forall k :: 0 <= k < 5 ==>
      && r.value.0[k] == TranslatedChunk(backend, Chunked(data, size)[2 * k])
      && r.value.1[k] == TranslatedChunk(backend, Chunked(data, size)[2 * k + 1])
    ensures r.Success? && size > 0 ==>
      Flatten(Interleave(r.value.0, r.value.1)) == TranslatedChunk(backend, data[..Min(10 * size, |data|)])
  {
    var chunked := DivideChunks(data, size);
    if chunked.Failure? {
      return Failure(chunked.error);
    }
    var dataChunks := chunked.value;
    if size > 0 {
      TenChunks(|data|, size);
    }
    r := TranslatePool(backend, dataChunks);
    if r.Success? {
      InterleavedColumns(backend, dataChunks, r.value.0, r.value.1);
      ChunkedPrefix(data, size, 10);
    }
  }
}
