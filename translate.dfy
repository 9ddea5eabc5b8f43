/** The translation worker: `to_list_text`, `list_to_dict` and `translate_chunks`.
    The remote translator is the parameter `backend`, the text it returns for one string. */
module Translate {
  import opened Seqs

  /** One dataset line: the values of its JSON object, in order. */
  type Record = seq<string>

  /** A translated record as it is written out: `{"inputs": ..., "targets": ...}`. */
  type Dict = map<string, string>

  /** The field of the translation library's result object that the pipeline reads,
      beside the string it was asked to translate. */
  datatype Translated = Translated(origin: string, text: string)

  /** `translator.translate(list_str, ...)` on a list: one result per string, in order. */
  function TranslateList(backend: string -> string, strs: seq<string>): (ts: seq<Translated>)
    ensures |ts| == |strs|
    ensures forall k :: 0 <= k < |strs| ==> ts[k].origin == strs[k] && ts[k].text == backend(strs[k])
  {
    seq(|strs|, k requires 0 <= k < |strs| => Translated(strs[k], backend(strs[k])))
  }

  /** The texts of a list of translation results, in order. */
  function Texts(ts: seq<Translated>): (r: seq<string>)
    ensures |r| == |ts|
    ensures forall k :: 0 <= k < |ts| ==> r[k] == ts[k].text
  {
    if ts == [] then [] else [ts[0].text] + Texts(ts[1..])
  }

  /** `to_list_text`: collects `.text` of every result by appending in a loop. */
  method ToListText(ts: seq<Translated>) returns (texts: seq<string>)
    ensures |texts| == |ts|
    ensures forall k :: 0 <= k < |ts| ==> texts[k] == ts[k].text
    ensures texts == Texts(ts)
  {
    texts := [];
    for i := 0 to |ts|
      invariant |texts| == i
      invariant forall k :: 0 <= k < i ==> texts[k] == ts[k].text
    {
      texts := texts + [ts[i].text];
    }
  }

  /** `dict(pairs)`: a later pair overwrites an earlier one with the same key. */
  function DictOf<K, V>(pairs: seq<(K, V)>): map<K, V>
  {
    if pairs == [] then map[] else
      var last := pairs[|pairs| - 1];
      DictOf(pairs[..|pairs| - 1])[last.0 := last.1]
  }

  /** The keys of `dict(pairs)` are the keys of the pairs, and each maps to the value of
      its last pair. */
  lemma {:induction false} DictOfLastWins<K, V>(pairs: seq<(K, V)>)
    ensures DictOf(pairs).Keys == set k | 0 <= k < |pairs| :: pairs[k].0
    ensures forall k :: 0 <= k < |pairs| && (forall m :: k < m < |pairs| ==> pairs[m].0 != pairs[k].0) ==>
      DictOf(pairs)[pairs[k].0] == pairs[k].1
  {
    if pairs != [] {
      var init := pairs[..|pairs| - 1];
      DictOfLastWins(init);
      assert forall k :: 0 <= k < |init| ==> init[k] == pairs[k];
    }
  }

  /** The field names of a translated record, in order. */
  const Titles: seq<string> := ["inputs", "targets"]

  /** The pairs `zip(['inputs', 'targets'], values)` builds: one per title that has a value. */
  lemma TitlePairs(values: seq<string>)
    ensures |values| == 0 ==> Zip(Titles, values) == []
    ensures |values| == 1 ==> Zip(Titles, values) == [(Titles[0], values[0])]
    ensures |values| >= 2 ==> Zip(Titles, values) == [(Titles[0], values[0]), (Titles[1], values[1])]
  {
    var z := Zip(Titles, values);
    if |values| == 1 {
      assert z == [z[0]];
    } else if |values| >= 2 {
      assert z == [z[0], z[1]];
    }
  }

  /** `list_to_dict`: `dict(zip(['inputs', 'targets'], values))`. The first value becomes
      "inputs", the second "targets"; a field exists only when its value does, and every
      value past the second is dropped. */
  function ListToDict(values: seq<string>): (d: Dict)
    ensures "inputs" in d <==> |values| >= 1
    ensures "targets" in d <==> |values| >= 2
    ensures d.Keys <= {"inputs", "targets"}
    ensures |d| == Min(2, |values|)
    ensures |values| >= 1 ==> d["inputs"] == values[0]
    ensures |values| >= 2 ==> d["targets"] == values[1]
  {
    var z := Zip(Titles, values);
    TitlePairs(values);
    DictOfLastWins(z);
    var d := DictOf(z);
    assert d.Keys == if |values| == 0 then {} else if |values| == 1 then {"inputs"} else {"inputs", "targets"};
    d
  }

  /** What the worker makes of one record: its values translated one by one, then named. */
  function TranslateRecord(backend: string -> string, record: Record): Dict
  {
    ListToDict(Texts(TranslateList(backend, record)))
  }

  /** A translated record holds the translation of the record's first value under "inputs"
      and of its second under "targets", where the record has them, and nothing else. */
  lemma TranslateRecordFields(backend: string -> string, record: Record)
    ensures var d := TranslateRecord(backend, record);
      && ("inputs" in d <==> |record| >= 1)
      && ("targets" in d <==> |record| >= 2)
      && d.Keys <= {"inputs", "targets"}
      && (|record| >= 1 ==> d["inputs"] == backend(record[0]))
      && (|record| >= 2 ==> d["targets"] == backend(record[1]))
  {
  }

  /** One chunk translated record by record, in order. */
  function TranslatedChunk(backend: string -> string, chunk: seq<Record>): seq<Dict>
  {
    Map((record: Record) => TranslateRecord(backend, record), chunk)
  }

  /** Lines 68-70: the translator applied to each record of a chunk, in order. */
  method TranslateEach(backend: string -> string, chunk: seq<Record>) returns (translatedChunk: seq<seq<Translated>>)
    ensures |translatedChunk| == |chunk|
    ensures forall m :: 0 <= m < |chunk| ==> translatedChunk[m] == TranslateList(backend, chunk[m])
  {
    translatedChunk := [];
    for j := 0 to |chunk|
      invariant |translatedChunk| == j
      invariant forall m :: 0 <= m < j ==> translatedChunk[m] == TranslateList(backend, chunk[m])
    {
      translatedChunk := translatedChunk + [TranslateList(backend, chunk[j])];
    }
  }

  /** Lines 71-73: `to_list_text` applied to each record's translation results, in order. */
  method TextsEach(translatedChunk: seq<seq<Translated>>) returns (translatedListChunk: seq<seq<string>>)
    ensures |translatedListChunk| == |translatedChunk|
    ensures forall m :: 0 <= m < |translatedChunk| ==> translatedListChunk[m] == Texts(translatedChunk[m])
  {
    translatedListChunk := [];
    for j := 0 to |translatedChunk|
      invariant |translatedListChunk| == j
      invariant forall m :: 0 <= m < j ==> translatedListChunk[m] == Texts(translatedChunk[m])
    {
      var texts := ToListText(translatedChunk[j]);
      translatedListChunk := translatedListChunk + [texts];
    }
  }

  /** Lines 74-76: `list_to_dict` applied to each record's texts, in order. */
  method DictsEach(translatedListChunk: seq<seq<string>>) returns (dictChunk: seq<Dict>)
    ensures |dictChunk| == |translatedListChunk|
    ensures forall m :: 0 <= m < |translatedListChunk| ==> dictChunk[m] == ListToDict(translatedListChunk[m])
  {
    dictChunk := [];
    for j := 0 to |translatedListChunk|
      invariant |dictChunk| == j
      invariant forall m :: 0 <= m < j ==> dictChunk[m] == ListToDict(translatedListChunk[m])
    {
      dictChunk := dictChunk + [ListToDict(translatedListChunk[j])];
    }
  }

  /** The body of the outer loop of `translate_chunks`: translates every record of one chunk,
      takes the texts and names them, each stage in a loop of its own. */
  method TranslateChunk(backend: string -> string, chunk: seq<Record>) returns (dictChunk: seq<Dict>)
    ensures |dictChunk| == |chunk|
    ensures forall j :: 0 <= j < |chunk| ==> dictChunk[j] == TranslateRecord(backend, chunk[j])
  {
    var translatedChunk := TranslateEach(backend, chunk);
    var translatedListChunk := TextsEach(translatedChunk);
    dictChunk := DictsEach(translatedListChunk);
  }

  /** `translate_chunks`: one list of translated records per chunk, in order. */
  method TranslateChunks(backend: string -> string, chunks: seq<seq<Record>>) returns (translated: seq<seq<Dict>>)
    ensures |translated| == |chunks|
    ensures forall i :: 0 <= i < |chunks| ==> |translated[i]| == |chunks[i]|
    ensures forall i, j :: 0 <= i < |chunks| && 0 <= j < |chunks[i]| ==>
      translated[i][j] == TranslateRecord(backend, chunks[i][j])
    ensures forall i :: 0 <= i < |chunks| ==> translated[i] == TranslatedChunk(backend, chunks[i])
  {
    translated := [];
    for i := 0 to |chunks|
      invariant |translated| == i
      invariant forall m :: 0 <= m < i ==> translated[m] == TranslatedChunk(backend, chunks[m])
    {
      var dictChunk := TranslateChunk(backend, chunks[i]);
      assert dictChunk == TranslatedChunk(backend, chunks[i]);
      translated := translated + [dictChunk];
    }
  }
}
