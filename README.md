# p3_translated: a verified model of the chunk-and-translate pipeline

`p3_translated.py` reads the records of a prompted dataset task, cuts them into
chunks of `--size` records, and hands the chunk list to five worker slots. Each
slot translates its chunks record by record into `{"inputs": ..., "targets": ...}`
dictionaries. The slot results are then transposed with `zip(*...)` and unpacked
into two output lists. This project models that pipeline in Dafny:

- `Chunks`: `divide_chunks` as a loop (`DivideChunks`, `SlicesOf`), checked against
  a recursive reference definition `Chunked`.
- `Translate`: `to_list_text`, `list_to_dict` and `translate_chunks`, with the
  translator given as a parameter `backend: string -> string`.
- `Pool`: the five slots of line 103, the `zip(*...)` transpose and two-way unpack
  of line 108, and the per-task body of `main` without file I/O (`TranslateTask`).
- `Seqs` and `Results`: Python's clamped slicing, `zip` truncation and the errors
  the pipeline can raise.

Python behaviour the model makes explicit:

- `range(0, len, 0)` raises `ValueError`. This is `Failure(RangeStepZero)`.
- A negative step yields no chunks.
- `a, b = xs` with `len(xs) != 2` raises `ValueError`. This is
  `Failure(UnpackMismatch(2, len(xs)))`.
- `zip` stops at its shortest argument, so the transpose has as many columns as
  the shortest slot. With at least ten chunks, slots 0-3 hold two chunks each, so
  there are exactly two columns:
  - the first column is chunks 0, 2, 4, 6, 8;
  - the second column is chunks 1, 3, 5, 7, 9;
  - chunks from index 10 on (the rest of slot 4) are translated but appear in
    neither output.
- With nine chunks the unpack sees one column; with fewer, none.
- The run therefore succeeds exactly when `size > 0` and there are more than `9 * size`
  records.

## Model

| member | source | states |
|---|---|---|
| Chunks.DivideChunks | p3_translated.py:43-46 | a zero step fails with the `range` error; a negative step yields no chunks; a positive step yields `Chunked(records, n)`, which has `ceil(len/n)` chunks, all of size `n` but a non-empty last one of at most `n`, and which flattens back to the records |
| Chunks.SlicesOf | p3_translated.py:45-46 | the loop over `range(0, len, n)` yielding `records[i:i+n]` produces exactly the reference chunking |
| Chunks.ChunkedCount | p3_translated.py:43-46 | the number of chunks is `ceil(len / n)` |
| Chunks.ChunkedFlatten | p3_translated.py:45-46 | concatenating the chunks in order gives back the records: nothing is lost, duplicated or reordered |
| Chunks.ChunkedSizes | p3_translated.py:43-46 | every chunk but the last has exactly `n` records; the last has between 1 and `n` |
| Chunks.ChunkedAt | p3_translated.py:45-46 | if chunk `k` exists, it starts inside the records (`k * n < len`) and is the slice `records[k*n : k*n+n]` |
| Chunks.ChunkedExists | p3_translated.py:45 | chunk `k` exists exactly when `k * n < len`, i.e. when `range(0, len, n)` reaches `k * n` |
| Chunks.ChunkedPrefix | p3_translated.py:45-46 | the first `m` chunks joined are the first `min(m*n, len)` records |
| Chunks.CeilDivAbove | p3_translated.py:45 | there are more than `c` chunks exactly when there are more than `c * n` records |
| Chunks.TenChunks | p3_translated.py:101-108 | there are at least ten chunks exactly when there are more than `9 * n` records |
| Seqs.Slice | p3_translated.py:46 | Python slicing `s[lo:hi]` is clamped to the sequence: its length is `min(hi, len) - lo`, or 0 past the end |
| Seqs.Drop | p3_translated.py:103 | `s[lo:]` has `len - lo` elements, or none past the end |
| Seqs.Zip | p3_translated.py:51 | `zip` has the length of its shorter argument and pairs the elements position by position |
| Seqs.Map | p3_translated.py:67-77 | one result per element, in order, result `j` being `f` of element `j`: the shape of every per-element loop of `translate_chunks` |
| Seqs.MapConcat | p3_translated.py:65-78 | mapping two runs one after the other is mapping the joined run |
| Seqs.FlattenConcat | p3_translated.py:103 | joining two lists of chunks and then flattening is flattening each and joining |
| Translate.TranslateList | p3_translated.py:61-63 | the translator returns one result per string, in order, result `k` recording string `k` and holding `backend(string k)` as its `.text` |
| Translate.Texts | p3_translated.py:36-40 | one text per translated object, `r[k]` being the `.text` of object `k` |
| Translate.ToListText | p3_translated.py:36-40 | the loop appending `mylist[i].text` keeps the length and maps `.text` element by element |
| Translate.DictOfLastWins | p3_translated.py:51 | `dict(pairs)` has exactly the pairs' keys, and each key maps to the value of its last pair |
| Translate.TitlePairs | p3_translated.py:50-51 | `zip(title, values)` pairs `"inputs"` with the first value and `"targets"` with the second, as far as the values reach |
| Translate.ListToDict | p3_translated.py:49-51 | `"inputs"` is a key iff there is at least one value and `"targets"` iff at least two; there are no other keys and `min(2, len)` entries; they map to values 0 and 1; values past the second are dropped |
| Translate.TranslateRecordFields | p3_translated.py:70-76 | a record's dictionary has `"inputs"` and `"targets"` as above, holding the translations of the record's first and second fields |
| Translate.TranslateEach | p3_translated.py:68-70 | the first inner loop gives one translation result list per record, in order |
| Translate.TextsEach | p3_translated.py:71-73 | the second inner loop gives `to_list_text` of each result list, in order |
| Translate.DictsEach | p3_translated.py:74-76 | the third inner loop gives `list_to_dict` of each text list, in order |
| Translate.TranslateChunk | p3_translated.py:68-76 | the three inner loops together give one dictionary per record of the chunk, in order, each the record translated field by field and zipped with the titles |
| Translate.TranslateChunks | p3_translated.py:65-78 | the output has one list per chunk and one dictionary per record, in the same shape as the input, entry `[i][j]` being record `j` of chunk `i` translated |
| Pool.PoolChunks | p3_translated.py:103 | there are five slots; slots 0-3 hold chunks `2k` and `2k+1` where they exist; slot 4 holds chunks 8 onward; slot entry `[k][j]` is chunk `2k+j` |
| Pool.PoolChunksCover | p3_translated.py:103 | the five slots joined in order are the chunk list |
| Pool.MinLength | p3_translated.py:108 | the length of the shortest slot result, which bounds every row and is attained by one |
| Pool.ZipAll | p3_translated.py:108 | `zip(*rows)` has no columns for no rows; otherwise it has as many columns as the shortest row, column `k` holding entry `k` of every row |
| Pool.ZipOfPool | p3_translated.py:103-108 | transposing the slots gives two columns from ten chunks on, one at nine and none below; entry `[k][i]` is chunk `2i+k`, so no chunk from index 10 on appears |
| Pool.Unpack2 | p3_translated.py:108 | `a, b = xs` succeeds iff `xs` has exactly two elements, binding them in order; otherwise it fails reporting two expected and `len(xs)` got |
| Pool.PoolUnpack | p3_translated.py:105-108 | the two-way unpack succeeds iff there are at least ten chunks, giving chunks 0, 2, 4, 6, 8 and 1, 3, 5, 7, 9; otherwise it fails, having seen one value (nine chunks) or none |
| Pool.PoolIgnoresTail | p3_translated.py:103-108 | two chunk lists that agree on their first ten chunks unpack to the same two outputs |
| Pool.TranslatedPoolColumns | p3_translated.py:103-108 | when each slot result translates its slot, column `k` of the transpose holds chunks `2i+k` translated |
| Pool.TranslatePool | p3_translated.py:103-108 | mapping `translate_chunks` over the five slots and unpacking succeeds iff there are at least ten chunks; it gives chunks 0, 2, 4, 6, 8 and 1, 3, 5, 7, 9 translated, or else the unpack error |
| Pool.Interleave | p3_translated.py:105-107 | the two lists taken alternately, the first list first |
| Pool.TranslatedChunkFlatten | p3_translated.py:65-78 | translating chunk by chunk and joining is translating the joined records |
| Pool.InterleavedColumns | p3_translated.py:105-108 | the two outputs taken alternately and joined are the first ten chunks translated in order |
| Pool.TranslateTask | p3_translated.py:100-108 | a task succeeds iff `size > 0` and there are more than `9 * size` records. A zero size fails with the `range` error and a negative one with the unpack error. The outputs are the even and odd chunks 0-9 translated; together in order they are the first `10 * size` records translated |

## Left out

- `read_json` and `save_translated_json` are file I/O. `TranslateTask` takes the
  decoded records as a parameter and returns the two lists that would be written.
  Both saves write the same file name, so the second list overwrites the first;
  the model does not represent files.
- JSON decoding is not part of this model. A record is the sequence of its fields'
  values in document order, and every value is taken to be a string.
- `translate_list_str` and the `Translator` behind its proxy are network calls. They
  are the parameter `backend`, applied to each string of a record. The model
  assumes the translator returns one translated object per input string.
- The `@retry` decorator is not modelled. `@retry(wait_fixed=4000)` has no stop
  condition, so a call that always raises (for example on a value that is not a
  string) is retried every four seconds forever and `pool.map` never returns. The
  model assumes every translator call returns.
- The eight-process `Pool` is not modelled. Line 103 cuts the chunk list into five
  contiguous slots (chunks 0-1, 2-3, 4-5, 6-7, and 8 onward), and the pool makes one
  `translate_chunks` call per slot. `pool.map` returns its results in
  slot order, so the model maps over the slots sequentially.
- `parse_args` and the `print` calls are not modelled. The chunk size is the
  parameter `size`, of any integer value.
- The loop over `TZERO_TASK_LIST` is not modelled beyond one iteration. Tasks are
  independent, and an error in one ends the whole run.
