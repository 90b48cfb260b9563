# Coverage_AI core in Dafny

This project models two parts of Coverage_AI.

**The retrieval helper `rag_context_finder.py`.**
- It cuts source files into fixed windows of `SNIPPET_SIZE` (500) characters (`get_code_snippets`).
- It stores every window of every listed file in a vector collection in one `add` call (`index_codebase`). Each window gets the id `doc_<k>`, with k counting from 0 across all files, and the metadata `{"source": <path>}`. A collection that already holds entries is left alone.
- It formats a query result as blocks labelled `## Source: <path>` and joins them with `\n---\n` (`retrieve_context`).

**The C++ formatters of `src/number_to_string.cpp`.**
- `numberToString(int)` labels a number as `NEGATIVE: `, `NULL` or `POSITIVE: `.
- `numberToString(const NumberGroup&)` puts the group name in front of the same label.
- `returnNumberVariant1` … `returnNumberVariant5` do the same with a numbered label around a caller-supplied string.

Modules, one per file:

- `Wrappers` (`wrappers.dfy`): `Option` and `Outcome`.
- `Decimal` (`decimal.dfy`): the decimal text of an integer, as both `std::to_string` and Python's f-strings produce it. It also has a parser that inverts it, which is how the ids and the formatters are shown to lose no information.
- `Chunker` (`chunker.dfy`): `get_code_snippets`.
  - The file system is a map from path to content, and a missing path is the `FileNotFoundError` branch.
  - `Snippets` is the reference definition: the first window, then the windows of the rest.
  - `GetCodeSnippets` is the source's loop, which slices with Python's clamped `content[i:i + 500]`. It is proved equal to that definition.
- `VectorStore` (`vector_store.dfy`): the collection as a class.
  - It holds a sequence of entries and a ghost log of `add` calls.
  - `Add` is all or nothing. It rejects lists of different lengths, an empty batch, or an id that is already present or repeated.
- `RagContextFinder` (`rag_context_finder.dfy`): `index_codebase` and `retrieve_context`.
  - `BuildBatch` is the counter loop that fills the three parallel lists.
  - `IndexCodebase` is the guard followed by the single `add`.
  - `RetrieveContext` is the nested `zip` loops followed by the join.
  - Each method is proved equal to a reference function, and the properties are proved as lemmas about those functions.
- `NumberToString` (`number_to_string.dfy`): the C++ formatters over a 32-bit `int`.
  - The `NumberGroup` class is a datatype, because its constructor (`src/number_to_string.cpp:4`) only stores its two arguments and nothing in the repository changes them afterwards.

Two points about the code shape the model:

- The code never checks the window size, which is the constant 500, so the chunking functions require `w > 0`.
- `index_codebase` sends every file's documents in one `add` call.

## Model

| member | source | states |
|---|---|---|
| Chunker.GetCodeSnippets | rag_context_finder.py:73-83 | the snippets yielded are exactly the windows of the file's content in order, or none when the file is not found |
| Chunker.FileSnippets | rag_context_finder.py:73-83 | a file that is not found (the `FileNotFoundError` branch) has no snippets; a found file has none exactly when it is empty |
| Chunker.SnippetsReconstruct | rag_context_finder.py:79-80 | concatenating the snippets in order gives back the content exactly (no character lost, duplicated or reordered) |
| Chunker.SnippetSizes | rag_context_finder.py:79-80 | there are ceil(len / w) snippets, none for empty content; all but the last have exactly w characters and the last has 1 to w |
| Chunker.SnippetAt | rag_context_finder.py:79-80 | the i-th snippet is the Python slice `content[i*w : i*w + w]`, and its start `i*w` lies inside the content |
| Chunker.SnippetAtStart | rag_context_finder.py:79-80 | the i-th snippet starts at the i-th element of `range(0, len, w)` |
| Chunker.FileSnippetSizes | rag_context_finder.py:19-19 | at SNIPPET_SIZE = 500, a missing file gives no snippets; a found file gives ceil(len / 500) snippets of 1 to 500 characters that concatenate to its content |
| Decimal.IntToString | src/number_to_string.cpp:8-8 | `std::to_string` is non-empty and starts with '-' exactly for negative numbers |
| Decimal.ParseIntToString | src/number_to_string.cpp:8-12 | the decimal text of any integer parses back to that integer |
| Decimal.IntToStringInjective | src/number_to_string.cpp:8-12 | two integers have the same decimal text if and only if they are equal |
| Decimal.NatToStringInjective | rag_context_finder.py:104-104 | two counters have the same decimal text if and only if they are equal |
| VectorStore.CallEntries | rag_context_finder.py:109-113 | an `add` call stores one entry per list position, and the entries' ids are the call's ids in order |
| VectorStore.Collection.Count | rag_context_finder.py:91-91 | `count()` is the number of stored ids, zero exactly when the collection holds nothing |
| VectorStore.Collection.Add | rag_context_finder.py:109-113 | a batch is stored whole or not at all: on success the entries are the old ones followed by the batch's; on rejection they are unchanged; ids stay unique |
| RagContextFinder.BuildBatch | rag_context_finder.py:95-105 | the three lists are the snippets of every file in order, one `{"source": path}` per snippet, and ids `doc_0` … `doc_<n-1>` |
| RagContextFinder.IndexCodebase | rag_context_finder.py:86-116 | a collection with entries is unchanged and gets no `add`; an empty one gets exactly one `add` of the whole batch when there are snippets, and no `add` when there are none; ids stay unique |
| RagContextFinder.DocIdInjective | rag_context_finder.py:104-104 | ids `doc_a` and `doc_b` are equal if and only if a = b |
| RagContextFinder.BatchIdsDistinct | rag_context_finder.py:95-105 | the batch's three lists have the same length and its ids are pairwise distinct, so `add` accepts it |
| RagContextFinder.AllSnippetsAppend | rag_context_finder.py:100-101 | indexing files a then b gives a's documents (and sources) followed by b's |
| RagContextFinder.MissingFileSkipped | rag_context_finder.py:81-83 | a file that is not found contributes nothing, and the files after it are still indexed |
| RagContextFinder.SnippetPlacement | rag_context_finder.py:100-105 | the k-th snippet of the j-th file is the document at position o + k, where o counts the snippets of the earlier files; its source is the j-th path, its metadata `{"source": path}` and its id `doc_<o+k>` |
| RagContextFinder.SourcesAreListedFiles | rag_context_finder.py:103-103 | every document's recorded source is one of the listed files |
| RagContextFinder.IndexIdempotent | rag_context_finder.py:90-93 | indexing a populated collection changes nothing, so indexing twice is the same as once; a first run into an empty collection adds one entry per snippet |
| RagContextFinder.RetrieveContext | rag_context_finder.py:129-135 | the returned text is the join, with `\n---\n`, of one labelled block per hit, query by query, each `zip` stopping at the shorter list; empty when the result has no documents |
| RagContextFinder.JoinIsSeparatedConcat | rag_context_finder.py:135-135 | `sep.join(parts)` is the parts concatenated with sep in front of every part but the first |
| RagContextFinder.JoinLength | rag_context_finder.py:135-135 | the length of a join is the parts' total length plus one separator per neighbouring pair |
| RagContextFinder.JoinStartsWithFirst | rag_context_finder.py:135-135 | a join of at least one part begins with the first part |
| RagContextFinder.BlockParts | rag_context_finder.py:133-133 | a block is `## Source: `, the source (or `Unknown`), a newline, the document and a newline, at offsets that depend on the source's length |
| RagContextFinder.FirstNewline | rag_context_finder.py:133-133 | the index returned is the first newline of the text, or its length when it has none |
| RagContextFinder.SplitAfterLabel | rag_context_finder.py:133-133 | after the label, a source without a newline ends at the first newline and the document runs from there to the final newline |
| RagContextFinder.BlockReadBack | rag_context_finder.py:133-133 | when the source holds no newline, reading a block back (source up to the first newline after the label, document up to the final newline) gives exactly the source and the document |
| RagContextFinder.BlockAmbiguousWithNewline | rag_context_finder.py:133-133 | when the source holds a newline, two different hits (`c` from `a\nb`, `b\nc` from `a`) format to the same block, so a block cannot always be read back |
| RagContextFinder.SingleQueryOrder | rag_context_finder.py:131-133 | for one query, the blocks are the hits in the order returned, as many as the shorter of the two lists |
| RagContextFinder.AllBlocksLabelled | rag_context_finder.py:131-133 | every block of every query starts with `## Source: ` and is longer than the label |
| RagContextFinder.ContextEmptyIffNoHits | rag_context_finder.py:129-135 | the context is empty if and only if there are no hits; otherwise it begins with `## Source: ` |
| RagContextFinder.IndexedSourceLabel | rag_context_finder.py:103-103 | a block made from an indexed entry is labelled with that entry's file, one of the listed files: its metadata holds the `source` key, so the `'Unknown'` default is never used |
| NumberToString.NumberToString | src/number_to_string.cpp:6-14 | `numberToString(int)`: the output starts with `NEGATIVE: ` if and only if the number is negative, is `NULL` if and only if it is zero, and starts with `POSITIVE: ` if and only if it is positive |
| NumberToString.GroupNumberToString | src/number_to_string.cpp:15-23 | `numberToString(const NumberGroup&)`: the group name, `": "`, then what the int overload prints for the group's number |
| NumberToString.ReturnNumberVariant | src/number_to_string.cpp:25-70 | the five variants' shared shape: label word, digit k, `": "`, the string and, unless the number is zero, its decimal text; it has no contract of its own, `VariantSign` and `VariantDeterminesNumber` are stated about it |
| NumberToString.ReturnNumberVariant1 | src/number_to_string.cpp:25-33 | `returnNumberVariant1` is the shared formatter at digit 1 |
| NumberToString.ReturnNumberVariant2 | src/number_to_string.cpp:35-43 | `returnNumberVariant2` is the shared formatter at digit 2 |
| NumberToString.ReturnNumberVariant3 | src/number_to_string.cpp:44-52 | `returnNumberVariant3` is the shared formatter at digit 3 |
| NumberToString.ReturnNumberVariant4 | src/number_to_string.cpp:53-61 | `returnNumberVariant4` is the shared formatter at digit 4 |
| NumberToString.ReturnNumberVariant5 | src/number_to_string.cpp:62-70 | `returnNumberVariant5` is the shared formatter at digit 5 |
| NumberToString.NumberToStringRoundTrip | src/number_to_string.cpp:6-14 | the output determines the number: reading it back gives the number again |
| NumberToString.VariantSign | src/number_to_string.cpp:25-70 | a variant's label classifies the sign: negative if and only if `NEGATIVE<k>`, output `NULL<k>: str` if and only if zero, positive if and only if `POSITIVE<k>` |
| NumberToString.VariantDeterminesNumber | src/number_to_string.cpp:25-70 | for a fixed variant and string, two numbers give the same output if and only if they are equal |
| NumberToString.ExpectedNumberToString | tests/test_number_to_string.cpp:10-28 | the int overload gives `POSITIVE: 10`, `NEGATIVE: -10` and `NULL` for 10, -10 and 0 |
| NumberToString.ExpectedGroupNumberToString | tests/test_number_to_string.cpp:6-25 | the group overload gives `GROUP_A: POSITIVE: 5`, `GROUP_B: NEGATIVE: -7` and `GROUP_C: NULL` |
| NumberToString.ExpectedVariants12 | tests/test_number_to_string.cpp:30-48 | variants 1 and 2 give `POSITIVE<k>: TEST5`, `NEGATIVE<k>: TEST-3` and `NULL<k>: TEST` |
| NumberToString.ExpectedVariants34 | tests/test_number_to_string.cpp:50-68 | variants 3 and 4 give `POSITIVE<k>: TEST5`, `NEGATIVE<k>: TEST-3` and `NULL<k>: TEST` |
| NumberToString.ExpectedVariant5 | tests/test_number_to_string.cpp:70-75 | variant 5 gives `POSITIVE5: TEST5` and `NEGATIVE5: TEST-3` as the tests expect, and `NULL5: TEST`, a case the test file leaves out |
| NumberToString.ExpectedAiNumberToString | tests/test_ai.cpp:5-14 | the int overload gives `NEGATIVE: -1`, `NULL` and `POSITIVE: 1` |
| NumberToString.ExpectedAiGroupNumberToString | tests/test_ai.cpp:16-24 | the group overload gives `GROUP: NEGATIVE: -1`, `GROUP: NULL` and `GROUP: POSITIVE: 1` |
| NumberToString.ExpectedAiVariants12 | tests/test_ai.cpp:26-44 | variants 1 and 2 give `NEGATIVE<k>: str-1`, `NULL<k>: str` and `POSITIVE<k>: str1` |
| NumberToString.ExpectedAiVariants34 | tests/test_ai.cpp:46-64 | variants 3 and 4 give `NEGATIVE<k>: str-1`, `NULL<k>: str` and `POSITIVE<k>: str1` |
| NumberToString.ExpectedAiVariant5 | tests/test_ai.cpp:66-73 | variant 5 gives `NEGATIVE5: str-1`, `NULL5: str` and `POSITIVE5: str1` |

## Left out

- The embedding function (`get_ollama_ef`), `get_db_client` and the persistent ChromaDB client are not modelled. The collection is an abstract sequence of entries; embeddings and persistence are not represented.
- The similarity search inside `client.query` and its `n_results=3` are not modelled: ranking is the library's. `RetrieveContext` takes the query result as a parameter and models what is done with it.
- Nothing about `main`, argument parsing, the printed progress and warning messages, or writing the context file is modelled.
- File reading is a map from path to content. Only the `FileNotFoundError` branch is modelled; other read errors (permissions, invalid UTF-8) propagate out of `get_code_snippets` in the source and are not represented.
- A `None` metadata entry or a result without a `metadatas` key makes the source raise; the model's query result always has a metadata dictionary per hit.
- VectorStore.Collection.Add: what ChromaDB does with an id that is already stored (ignore or raise, depending on version) is not modelled; the model rejects the batch as a whole. `index_codebase` only calls `add` on an empty collection with distinct ids, so its behaviour does not depend on this choice.
- NumberToString: `std::to_string` of an `int` cannot overflow, so the 32-bit width only bounds the input type.
- `ai_generate_promt.py`, `summarize_code.py` and `src/main.cpp` are not part of this model.
