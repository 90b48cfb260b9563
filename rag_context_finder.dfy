/**
 * `index_codebase` and `retrieve_context` of rag_context_finder.py.
 *
 * Indexing is a one-shot step: a collection that already holds entries is
 * left alone; otherwise every snippet of every file, in file order, becomes
 * one entry with id "doc_<k>" (k counting from 0 across all files) and
 * metadata {"source": <path>}, and all of them go to the collection in a
 * single `add`. Retrieval formats the ranked hits of a query as labelled
 * blocks joined by a fixed delimiter.
 */
module RagContextFinder {
  import opened Wrappers
  import opened Decimal
  import opened Chunker
  import opened VectorStore

  /** The id of the k-th snippet indexed: f"doc_{k}". */
  function DocId(k: nat): string {
    "doc_" + NatToString(k)
  }

  /** The documents list: every file's snippets, files in input order. */
  function AllSnippets(fs: FileSystem, files: seq<string>): seq<string>
    decreases |files|
  {
    if files == [] then []
    else AllSnippets(fs, files[..|files| - 1]) + FileSnippets(fs, files[|files| - 1])
  }

  function Repeat(x: string, n: nat): (r: seq<string>)
    ensures |r| == n && forall i :: 0 <= i < n ==> r[i] == x
  {
    seq(n, _ => x)
  }

  /** The path each document came from, position by position. */
  function AllSources(fs: FileSystem, files: seq<string>): (r: seq<string>)
    ensures |r| == |AllSnippets(fs, files)|
    decreases |files|
  {
    if files == [] then []
    else
      var path := files[|files| - 1];
      AllSources(fs, files[..|files| - 1]) + Repeat(path, |FileSnippets(fs, path)|)
  }

  /** `{"source": path}`. */
  function SourceMetadata(path: string): Metadata {
    map["source" := path]
  }

  /** The ids of the first n documents: "doc_0" … "doc_<n-1>". */
  function Ids(n: nat): (r: seq<string>)
    ensures |r| == n
  {
    seq(n, i requires 0 <= i => DocId(i))
  }

  /** One `{"source": path}` per document. */
  function SourceMetadatas(sources: seq<string>): (r: seq<Metadata>)
    ensures |r| == |sources|
  {
    seq(|sources|, i requires 0 <= i < |sources| => SourceMetadata(sources[i]))
  }

  /** The three parallel lists index_codebase hands to `add`. */
  function BatchCall(fs: FileSystem, files: seq<string>): AddCall {
    var docs := AllSnippets(fs, files);
    AddCall(docs, SourceMetadatas(AllSources(fs, files)), Ids(|docs|))
  }

  /** The collection's entries after index_codebase, given those before. */
  function Indexed(entries: seq<Entry>, fs: FileSystem, files: seq<string>): seq<Entry> {
    if |entries| > 0 || |AllSnippets(fs, files)| == 0 then entries
    else entries + CallEntries(BatchCall(fs, files))
  }

  /** The document counter loop of index_codebase: the three parallel lists. */
  method BuildBatch(fs: FileSystem, files: seq<string>)
    returns (documents: seq<string>, metadatas: seq<Metadata>, ids: seq<string>)
    ensures AddCall(documents, metadatas, ids) == BatchCall(fs, files)
  {
    documents, metadatas, ids := [], [], [];
    var counter: nat := 0;
    ghost var sources: seq<string> := [];
    for j := 0 to |files|
      invariant documents == AllSnippets(fs, files[..j])
      invariant sources == AllSources(fs, files[..j])
      invariant counter == |documents|
      invariant ids == Ids(counter)
      invariant metadatas == SourceMetadatas(sources)
    {
      var path := files[j];
      var snippets := GetCodeSnippets(fs, path);
      for k := 0 to |snippets|
        invariant documents == AllSnippets(fs, files[..j]) + snippets[..k]
        invariant sources == AllSources(fs, files[..j]) + Repeat(path, k)
        invariant counter == |documents|
        invariant ids == Ids(counter)
        invariant metadatas == SourceMetadatas(sources)
      {
        documents := documents + [snippets[k]];
        metadatas := metadatas + [SourceMetadata(path)];
        ids := ids + [DocId(counter)];
        ListsGrow(sources, path, counter);
        sources := sources + [path];
        counter := counter + 1;
        assert snippets[..k + 1] == snippets[..k] + [snippets[k]];
        assert Repeat(path, k + 1) == Repeat(path, k) + [path];
      }
      assert snippets[..|snippets|] == snippets;
      FilesStep(fs, files, j);
    }
    assert files[..|files|] == files;
  }

  /** Appending one document extends the id and metadata lists by one element each. */
  lemma ListsGrow(sources: seq<string>, path: string, n: nat)
    ensures Ids(n + 1) == Ids(n) + [DocId(n)]
    ensures SourceMetadatas(sources + [path]) == SourceMetadatas(sources) + [SourceMetadata(path)]
  {
  }

  /** Taking one more file appends that file's snippets and sources. */
  lemma FilesStep(fs: FileSystem, files: seq<string>, j: nat)
    requires j < |files|
    ensures AllSnippets(fs, files[..j + 1]) == AllSnippets(fs, files[..j]) + FileSnippets(fs, files[j])
    ensures AllSources(fs, files[..j + 1])
         == AllSources(fs, files[..j]) + Repeat(files[j], |FileSnippets(fs, files[j])|)
  {
    assert files[..j + 1][..j] == files[..j];
  }

  /** `index_codebase`: skip a populated collection, else one `add` of every snippet. */
  method IndexCodebase(col: Collection, fs: FileSystem, files: seq<string>)
    requires col.Valid()
    modifies col
    ensures col.Valid()
    ensures col.entries == Indexed(old(col.entries), fs, files)
    ensures col.addLog == old(col.addLog) +
      (if old(col.Count()) == 0 && |AllSnippets(fs, files)| > 0 then [BatchCall(fs, files)] else [])
  {
    if col.Count() > 0 {
      return;
    }
    var documents, metadatas, ids := BuildBatch(fs, files);
    if |documents| > 0 {
      BatchIdsDistinct(fs, files);
      assert EntryIds(col.entries) + ids == ids;
      var outcome := col.Add(documents, metadatas, ids);
    }
  }

  /** Ids "doc_a" and "doc_b" coincide only when a and b do. */
  lemma DocIdInjective(a: nat, b: nat)
    ensures DocId(a) == DocId(b) <==> a == b
  {
    if DocId(a) == DocId(b) {
      assert NatToString(a) == DocId(a)[4..] && NatToString(b) == DocId(b)[4..];
      NatToStringInjective(a, b);
    }
  }

  /** The batch's ids are pairwise distinct and its lists are aligned. */
  lemma BatchIdsDistinct(fs: FileSystem, files: seq<string>)
    ensures WellShaped(BatchCall(fs, files))
    ensures IdsDistinct(BatchCall(fs, files).ids)
  {
    var ids := BatchCall(fs, files).ids;
    forall i, j | 0 <= i < j < |ids|
      ensures ids[i] != ids[j]
    {
      DocIdInjective(i, j);
    }
  }

  /** Listing files one after another lists their snippets one after another. */
  lemma AllSnippetsAppend(fs: FileSystem, a: seq<string>, b: seq<string>)
    ensures AllSnippets(fs, a + b) == AllSnippets(fs, a) + AllSnippets(fs, b)
    ensures AllSources(fs, a + b) == AllSources(fs, a) + AllSources(fs, b)
  {
    DocumentsAppend(fs, a, b);
    SourcesAppend(fs, a, b);
  }

  /** The last element of `a + b`, and what precedes it, when b is not empty. */
  lemma LastOfAppend<T>(a: seq<T>, b: seq<T>)
    requires b != []
    ensures (a + b)[..|a + b| - 1] == a + b[..|b| - 1]
    ensures (a + b)[|a + b| - 1] == b[|b| - 1]
  {
  }

  lemma AppendAssoc<T>(x: seq<T>, y: seq<T>, z: seq<T>)
    ensures (x + y) + z == x + (y + z)
  {
  }

  lemma {:induction false} DocumentsAppend(fs: FileSystem, a: seq<string>, b: seq<string>)
    ensures AllSnippets(fs, a + b) == AllSnippets(fs, a) + AllSnippets(fs, b)
    decreases |b|
  {
    if b == [] {
      assert a + b == a;
    } else {
      var b', last := b[..|b| - 1], b[|b| - 1];
      var own := FileSnippets(fs, last);
      LastOfAppend(a, b);
      calc {
        AllSnippets(fs, a + b);
        AllSnippets(fs, a + b') + own;
        { DocumentsAppend(fs, a, b'); }
        (AllSnippets(fs, a) + AllSnippets(fs, b')) + own;
        { AppendAssoc(AllSnippets(fs, a), AllSnippets(fs, b'), own); }
        AllSnippets(fs, a) + (AllSnippets(fs, b') + own);
        AllSnippets(fs, a) + AllSnippets(fs, b);
      }
    }
  }

  lemma {:induction false} SourcesAppend(fs: FileSystem, a: seq<string>, b: seq<string>)
    ensures AllSources(fs, a + b) == AllSources(fs, a) + AllSources(fs, b)
    decreases |b|
  {
    if b == [] {
      assert a + b == a;
    } else {
      var b', last := b[..|b| - 1], b[|b| - 1];
      var own := Repeat(last, |FileSnippets(fs, last)|);
      LastOfAppend(a, b);
      calc {
        AllSources(fs, a + b);
        AllSources(fs, a + b') + own;
        { SourcesAppend(fs, a, b'); }
        (AllSources(fs, a) + AllSources(fs, b')) + own;
        { AppendAssoc(AllSources(fs, a), AllSources(fs, b'), own); }
        AllSources(fs, a) + (AllSources(fs, b') + own);
        AllSources(fs, a) + AllSources(fs, b);
      }
    }
  }

  /** A file that is not found contributes nothing; the files after it still count. */
  lemma MissingFileSkipped(fs: FileSystem, a: seq<string>, path: string, b: seq<string>)
    requires path !in fs
    ensures AllSnippets(fs, a + [path] + b) == AllSnippets(fs, a + b)
    ensures AllSources(fs, a + [path] + b) == AllSources(fs, a + b)
  {
    assert AllSnippets(fs, [path]) == [] && AllSources(fs, [path]) == [] by {
      assert [path][..0] == [];
    }
    AllSnippetsAppend(fs, a + [path], b);
    AllSnippetsAppend(fs, a, [path]);
    AllSnippetsAppend(fs, a, b);
    assert AllSnippets(fs, a + [path]) == AllSnippets(fs, a);
    assert AllSources(fs, a + [path]) == AllSources(fs, a);
  }

  /**
   * The k-th snippet of the j-th file sits right after the snippets of the
   * files before it: it is the document at that position, its source is the
   * j-th path, and so its id counts on from theirs.
   */
  lemma SnippetPlacement(fs: FileSystem, files: seq<string>, j: nat, k: nat)
    requires j < |files| && k < |FileSnippets(fs, files[j])|
    ensures var o := |AllSnippets(fs, files[..j])|;
      && o + k < |AllSnippets(fs, files)|
      && AllSnippets(fs, files)[o + k] == FileSnippets(fs, files[j])[k]
      && AllSources(fs, files)[o + k] == files[j]
      && BatchCall(fs, files).ids[o + k] == DocId(o + k)
      && BatchCall(fs, files).metadatas[o + k] == SourceMetadata(files[j])
  {
    SnippetPlacementLists(fs, files, j, k);
  }

  lemma SnippetPlacementLists(fs: FileSystem, files: seq<string>, j: nat, k: nat)
    requires j < |files| && k < |FileSnippets(fs, files[j])|
    ensures var o := |AllSnippets(fs, files[..j])|;
      && o + k < |AllSnippets(fs, files)|
      && AllSnippets(fs, files)[o + k] == FileSnippets(fs, files[j])[k]
      && AllSources(fs, files)[o + k] == files[j]
  {
    var own := FileSnippets(fs, files[j]);
    var pre, rest := AllSnippets(fs, files[..j]), AllSnippets(fs, files[j + 1..]);
    var preSources, restSources := AllSources(fs, files[..j]), AllSources(fs, files[j + 1..]);
    FilesSplit(fs, files, j);
    IndexInMiddle(pre, own, rest, k);
    IndexInMiddle(preSources, Repeat(files[j], |own|), restSources, k);
  }

  /** The snippets of all files are those before file j, file j's, and those after. */
  lemma FilesSplit(fs: FileSystem, files: seq<string>, j: nat)
    requires j < |files|
    ensures AllSnippets(fs, files)
         == AllSnippets(fs, files[..j]) + FileSnippets(fs, files[j]) + AllSnippets(fs, files[j + 1..])
    ensures AllSources(fs, files)
         == AllSources(fs, files[..j]) + Repeat(files[j], |FileSnippets(fs, files[j])|)
            + AllSources(fs, files[j + 1..])
  {
    var front, back := files[..j + 1], files[j + 1..];
    assert front + back == files;
    FilesStep(fs, files, j);
    assert AllSnippets(fs, files) == AllSnippets(fs, front) + AllSnippets(fs, back) by {
      DocumentsAppend(fs, front, back);
    }
    assert AllSources(fs, files) == AllSources(fs, front) + AllSources(fs, back) by {
      SourcesAppend(fs, front, back);
    }
  }

  lemma IndexInMiddle<T>(a: seq<T>, b: seq<T>, c: seq<T>, k: nat)
    requires k < |b|
    ensures |a| + k < |a + b + c| && (a + b + c)[|a| + k] == b[k]
  {
  }

  /** Every document's source is one of the listed files. */
  lemma {:induction false} SourcesAreListedFiles(fs: FileSystem, files: seq<string>, i: nat)
    requires i < |AllSources(fs, files)|
    ensures AllSources(fs, files)[i] in files
    decreases |files|
  {
    var init := files[..|files| - 1];
    if i < |AllSources(fs, init)| {
      SourcesAreListedFiles(fs, init, i);
    }
  }

  /**
   * The one-shot guard: a populated collection is never changed, so running
   * indexing a second time changes nothing; a first run into an empty
   * collection leaves exactly one entry per snippet.
   */
  lemma IndexIdempotent(entries: seq<Entry>, fs: FileSystem, files: seq<string>,
                        fs': FileSystem, files': seq<string>)
    ensures |entries| > 0 ==> Indexed(entries, fs', files') == entries
    ensures |Indexed(entries, fs, files)| > 0 ==>
      Indexed(Indexed(entries, fs, files), fs', files') == Indexed(entries, fs, files)
    ensures Indexed(Indexed(entries, fs, files), fs, files) == Indexed(entries, fs, files)
    ensures |entries| == 0 ==> |Indexed(entries, fs, files)| == |AllSnippets(fs, files)|
  {
  }

  // ---------------------------------------------------------------------
  // retrieve_context

  /** The part of a query result the formatter reads: per query text, the
      ranked documents and their metadatas. `documents` is None when the
      result has no such key or it is None. */
  datatype QueryResult = QueryResult(documents: Option<seq<seq<string>>>, metadatas: seq<seq<Metadata>>)

  const Delimiter: string := "\n---\n"
  const SourceLabel: string := "## Source: "

  /** `metadata.get('source', 'Unknown')`. */
  function SourceOf(md: Metadata): string {
    if "source" in md then md["source"] else "Unknown"
  }

  /** One labelled block. */
  function FormatBlock(doc: string, md: Metadata): string {
    SourceLabel + SourceOf(md) + "\n" + doc + "\n"
  }

  /** The blocks of one query's hits: `zip(docs, metadatas)` stops at the shorter list. */
  function Hits(docs: seq<string>, mds: seq<Metadata>): seq<string> {
    seq(Min(|docs|, |mds|), k requires 0 <= k < Min(|docs|, |mds|) => FormatBlock(docs[k], mds[k]))
  }

  /** The blocks of the first q queries, in order. */
  function Blocks(docs: seq<seq<string>>, mds: seq<seq<Metadata>>, q: nat): seq<string>
    requires q <= |docs| && q <= |mds|
  {
    if q == 0 then [] else Blocks(docs, mds, q - 1) + Hits(docs[q - 1], mds[q - 1])
  }

  /** The blocks of every query: the outer zip also stops at the shorter list. */
  function AllBlocks(docs: seq<seq<string>>, mds: seq<seq<Metadata>>): seq<string> {
    Blocks(docs, mds, Min(|docs|, |mds|))
  }

  /** `sep.join(parts)`. */
  function Join(parts: seq<string>, sep: string): string {
    if |parts| == 0 then ""
    else if |parts| == 1 then parts[0]
    else Join(parts[..|parts| - 1], sep) + sep + parts[|parts| - 1]
  }

  /** What retrieve_context returns for a query result. */
  function Context(results: QueryResult): string {
    match results.documents
    case None => ""
    case Some(docs) => Join(AllBlocks(docs, results.metadatas), Delimiter)
  }

  /** `retrieve_context` after the query: the nested loops, then the join. */
  method RetrieveContext(results: QueryResult) returns (text: string)
    ensures text == Context(results)
  {
    var context: seq<string> := [];
    if results.documents.Some? && |results.documents.value| > 0 {
      var docs, mds := results.documents.value, results.metadatas;
      var n := Min(|docs|, |mds|);
      for q := 0 to n
        invariant context == Blocks(docs, mds, q)
      {
        var d, m := docs[q], mds[q];
        for k := 0 to Min(|d|, |m|)
          invariant context == Blocks(docs, mds, q) + Hits(d, m)[..k]
        {
          context := context + [FormatBlock(d[k], m[k])];
          assert Hits(d, m)[..k + 1] == Hits(d, m)[..k] + [FormatBlock(d[k], m[k])];
        }
        assert Hits(d, m)[..Min(|d|, |m|)] == Hits(d, m);
      }
    }
    text := Join(context, Delimiter);
  }

  /** The separators interleaved: the first part, then sep + part for each later one. */
  function Separated(parts: seq<string>, sep: string): (r: seq<string>)
    ensures |r| == |parts|
  {
    seq(|parts|, i requires 0 <= i < |parts| => (if i == 0 then "" else sep) + parts[i])
  }

  /** `join` is the concatenation of the parts with sep before every part but the first. */
  lemma {:induction false} JoinIsSeparatedConcat(parts: seq<string>, sep: string)
    ensures Join(parts, sep) == Flatten(Separated(parts, sep))
    decreases |parts|
  {
    var r := Separated(parts, sep);
    if |parts| == 1 {
      assert r[..0] == [];
    } else if |parts| > 1 {
      var init := parts[..|parts| - 1];
      JoinIsSeparatedConcat(init, sep);
      assert r[..|r| - 1] == Separated(init, sep);
    }
  }

  function SumLengths(parts: seq<string>): nat
    decreases |parts|
  {
    if parts == [] then 0 else SumLengths(parts[..|parts| - 1]) + |parts[|parts| - 1]|
  }

  /** The length of a join: the parts plus one separator between each neighbouring pair. */
  lemma {:induction false} JoinLength(parts: seq<string>, sep: string)
    requires |parts| > 0
    ensures |Join(parts, sep)| == SumLengths(parts) + (|parts| - 1) * |sep|
    decreases |parts|
  {
    if |parts| == 1 {
      assert parts[..0] == [];
    } else {
      JoinLength(parts[..|parts| - 1], sep);
    }
  }

  /** A join of at least one part begins with the first part. */
  lemma {:induction false} JoinStartsWithFirst(parts: seq<string>, sep: string)
    requires |parts| > 0
    ensures parts[0] <= Join(parts, sep)
    decreases |parts|
  {
    if |parts| > 1 {
      JoinStartsWithFirst(parts[..|parts| - 1], sep);
    }
  }

  /**
   * A block is the label, the source, a newline, the document and a
   * newline, at offsets that depend on the length of the source.
   */
  lemma BlockParts(doc: string, md: Metadata)
    ensures var b, src := FormatBlock(doc, md), SourceOf(md);
      && |b| == |SourceLabel| + |src| + |doc| + 2
      && b[..|SourceLabel|] == SourceLabel
      && b[|SourceLabel|..|SourceLabel| + |src|] == src
      && b[|SourceLabel| + |src|] == '\n'
      && b[|SourceLabel| + |src| + 1..|b| - 1] == doc
      && b[|b| - 1] == '\n'
  {
  }

  /** The index of the first newline in s, or |s| when there is none. */
  function FirstNewline(s: string): (i: nat)
    ensures i <= |s|
    ensures forall j :: 0 <= j < i ==> s[j] != '\n'
    ensures i < |s| ==> s[i] == '\n'
  {
    if |s| == 0 || s[0] == '\n' then 0 else 1 + FirstNewline(s[1..])
  }

  /**
   * Reads a block back: the source is the text between the label and the
   * first newline, the document what follows up to the final newline.
   */
  function ParseBlock(b: string): Option<(string, string)> {
    if !(SourceLabel <= b) then None
    else
      var rest := b[|SourceLabel|..];
      var n := FirstNewline(rest);
      if n + 1 <= |rest| - 1 && rest[|rest| - 1] == '\n' then Some((rest[..n], rest[n + 1..|rest| - 1]))
      else None
  }

  lemma {:induction false} FirstNewlineAfter(src: string, tail: string)
    requires '\n' !in src && |tail| > 0 && tail[0] == '\n'
    ensures FirstNewline(src + tail) == |src|
    decreases |src|
  {
    if |src| == 0 {
      assert src + tail == tail;
    } else {
      assert (src + tail)[1..] == src[1..] + tail;
      FirstNewlineAfter(src[1..], tail);
    }
  }

  /** The text after the label splits at the source's end. */
  lemma {:induction false} SplitAfterLabel(src: string, doc: string)
    requires '\n' !in src
    ensures var rest := src + ("\n" + doc + "\n");
      FirstNewline(rest) == |src| && rest[..|src|] == src
      && rest[|src| + 1..|rest| - 1] == doc && rest[|rest| - 1] == '\n'
  {
    var tail := "\n" + doc + "\n";
    FirstNewlineAfter(src, tail);
    assert (src + tail)[|src| + 1..|src + tail| - 1] == doc;
  }

  /** A block whose source has no newline gives back its source and its document. */
  lemma BlockReadBack(doc: string, md: Metadata)
    requires '\n' !in SourceOf(md)
    ensures ParseBlock(FormatBlock(doc, md)) == Some((SourceOf(md), doc))
  {
    var src := SourceOf(md);
    var rest := src + ("\n" + doc + "\n");
    assert SourceLabel <= FormatBlock(doc, md) && FormatBlock(doc, md)[|SourceLabel|..] == rest by {
      assert FormatBlock(doc, md) == SourceLabel + rest;
    }
    SplitAfterLabel(src, doc);
  }

  /** With a newline in the source, two different hits format to the same block. */
  lemma BlockAmbiguousWithNewline()
    ensures FormatBlock("c", map["source" := "a\nb"]) == FormatBlock("b\nc", map["source" := "a"])
  {
    assert SourceOf(map["source" := "a\nb"]) == "a\nb";
    assert SourceOf(map["source" := "a"]) == "a";
  }

  /** Hits keep the order the query returned them in. */
  lemma SingleQueryOrder(docs: seq<string>, mds: seq<Metadata>)
    ensures var b := AllBlocks([docs], [mds]);
      && |b| == Min(|docs|, |mds|)
      && forall k :: 0 <= k < |b| ==> b[k] == FormatBlock(docs[k], mds[k])
  {
    assert AllBlocks([docs], [mds]) == Blocks([docs], [mds], 0) + Hits(docs, mds);
  }

  /**
   * The context is empty exactly when there are no hits; otherwise it
   * begins with the label of the first hit's source.
   */
  lemma ContextEmptyIffNoHits(results: QueryResult)
    ensures var blocks := if results.documents.None? then [] else AllBlocks(results.documents.value, results.metadatas);
      && (Context(results) == "" <==> |blocks| == 0)
      && (|blocks| > 0 ==> SourceLabel <= Context(results))
  {
    if results.documents.Some? {
      var blocks := AllBlocks(results.documents.value, results.metadatas);
      if |blocks| > 0 {
        JoinStartsWithFirst(blocks, Delimiter);
        assert SourceLabel <= blocks[0] by { BlockPrefix(blocks, results); }
      }
    }
  }

  lemma BlockPrefix(blocks: seq<string>, results: QueryResult)
    requires results.documents.Some? && blocks == AllBlocks(results.documents.value, results.metadatas)
    ensures forall i :: 0 <= i < |blocks| ==> SourceLabel <= blocks[i] && |blocks[i]| > |SourceLabel|
  {
    AllBlocksLabelled(results.documents.value, results.metadatas, Min(|results.documents.value|, |results.metadatas|));
  }

  lemma {:induction false} AllBlocksLabelled(docs: seq<seq<string>>, mds: seq<seq<Metadata>>, q: nat)
    requires q <= |docs| && q <= |mds|
    ensures forall i :: 0 <= i < |Blocks(docs, mds, q)| ==>
      SourceLabel <= Blocks(docs, mds, q)[i] && |Blocks(docs, mds, q)[i]| > |SourceLabel|
  {
    if q > 0 {
      AllBlocksLabelled(docs, mds, q - 1);
    }
  }

  /**
   * Indexed entries carry their file as source, so a block formatted from
   * one of them is labelled with that file rather than "Unknown".
   */
  lemma IndexedSourceLabel(fs: FileSystem, files: seq<string>, i: nat)
    requires i < |AllSnippets(fs, files)|
    ensures var c := BatchCall(fs, files);
      && "source" in c.metadatas[i]
      && SourceOf(c.metadatas[i]) == AllSources(fs, files)[i]
      && SourceOf(c.metadatas[i]) in files
      && FormatBlock(c.documents[i], c.metadatas[i])
         == SourceLabel + AllSources(fs, files)[i] + "\n" + AllSnippets(fs, files)[i] + "\n"
  {
    SourcesAreListedFiles(fs, files, i);
  }
}
