# brt coordination layer, modelled in Dafny

`brt` is a text-retrieval toolkit. Its Rust core keeps a registry of named
full-text indices and feeds them documents. A document is a map from field
name to text. The documents come from three sources:

- single documents;
- files on disk: a file becomes a document holding its path under `"name"`
  and its text under `"contents"`;
- dataframes: each row becomes a document. The row's text columns whose name
  is one of the index's field names set that name to the cell's text. A null cell
  becomes the literal text `"None"`.

This project models that coordination layer. It does not model the search
engine itself.

- `common.dfy` (module `Common`): outcomes, results and options. It also
  defines schedules: a permutation `order` of the rows, and `Permute`, the
  rows taken in that order. A permutation reorders but loses or duplicates
  nothing (`PermutationMultiset`).
- `wrappers.dfy` (module `Wrappers`): the engine, as the layer sees it.
  - An `IndexWrapper` holds its committed (searchable) documents and its
    staged documents. It also keeps a ghost log `history` of every request
    it received: an add or a commit, each with the engine's answer, or a
    query's text; the hits a query returns are not recorded.
  - `Valid()` ties the documents to the log. `Run` replays a log:
    - an accepted add stages its document;
    - a successful commit makes everything staged searchable;
    - a rejected add, a failed commit and a query change nothing.
  - The engine may refuse any add or commit, so its answers are arbitrary.
  - Two batch protocols are defined, each with a lemma that states its effect:
    - `StageAllThenCommit`: one add per document, rejections ignored, then one
      commit.
    - `StopAtFirstFailure`: adds until the first rejection, and a commit only
      when every add was accepted.
- `polars_documents.dfy` (module `PolarsDocuments`): dataframes, column
  selection, row documents, the row-by-row callback loop, and the ingestion of
  a dataframe through one batch.
- `indexable.dfy` (module `Indexable`): ingestion of a collection of paths and
  of a dataframe, and the example ingestion test.
- `index_registry.dfy` (module `Registry`): the registry class over a map from
  name to index.

Side effects are parameters:

- The file system is a map from each readable path to its text.
- The rayon scheduler that stages a dataframe's rows concurrently is a
  permutation `order` of the row numbers.

The order in which the rows reach the index is whatever the scheduler chose.
The proved contracts say:

- every row's document is offered exactly once, as a multiset;
- one commit follows the adds;
- only accepted documents are staged, a sub-multiset of the row documents.

## Model

| member | source | states |
|---|---|---|
| Common.PermutationMultiset | brt_core/src/polars_documents.rs:24-28 | A schedule of the row numbers has one entry per row, each a valid row, and the rows taken in that order are a rearrangement of the rows: the same multiset |
| Wrappers.IndexWrapper.constructor | brt_core/src/index_registry.rs:34 | A new index keeps its name, identity field and fields; its field names include every declared field; it holds no document and has received no request |
| Wrappers.IndexWrapper.NumDocs | brt_core/src/polars_documents.rs:107 | The number of documents is the number of searchable documents that the index's requests produced; staged ones do not count |
| Wrappers.IndexWrapper.AddDocument | brt_core/src/index_registry.rs:46 | An add is logged with the engine's answer; the document is staged exactly when accepted; searchable documents do not change |
| Wrappers.IndexWrapper.Commit | brt_core/src/polars_documents.rs:29 | A successful commit makes the staged documents searchable, after the earlier ones, and empties the staging area; a failed one changes nothing |
| Wrappers.IndexWrapper.Search | brt_core/src/index_registry.rs:53 | A query is logged and changes no document, committed or staged |
| Wrappers.BatchIndexer.constructor | brt_core/src/polars_documents.rs:22 | A new batch feeds the index it was created on |
| Wrappers.BatchIndexer.AddDocument | brt_core/src/polars_documents.rs:27 | Adding through a batch is adding to its index: logged, staged exactly when accepted, nothing made searchable |
| Wrappers.BatchIndexer.Commit | brt_core/src/indexable.rs:29 | Committing a batch commits its index: on success the staged documents become searchable, on failure nothing changes |
| Wrappers.StageAllThenCommitEffect | brt_core/src/polars_documents.rs:22-30 | A batch of one add per document then a commit commits once; it stages only a sub-multiset of the documents; on a successful commit the earlier staged and every accepted document become searchable, on a failed one nothing new does |
| Wrappers.AcceptedDocsSubMultiset | brt_core/src/polars_documents.rs:25-28 | With rejected adds ignored, the staged documents are a sub-multiset of the offered ones |
| Wrappers.AllAcceptedIff | brt_core/src/polars_documents.rs:27 | The staged documents are exactly the offered ones, in order, if and only if the engine accepted every add; likewise, as many documents are staged as adds were made if and only if every add was accepted |
| Wrappers.ScheduledAdd | brt_core/src/polars_documents.rs:25-28 | Adding the row scheduled next, whatever the engine answers, extends the adds along the schedule by that row's document, and stages it exactly when accepted |
| Wrappers.ScheduledCommit | brt_core/src/polars_documents.rs:24-29 | A commit after one add per scheduled row completes the batch of the scheduled documents, and what it staged is a sub-multiset of the rows |
| Wrappers.BatchOfTwo | brt_core/src/polars_documents.rs:104-108 | A two-document batch into an empty index is two adds and a commit; at most two documents become searchable, and exactly two if and only if both adds and the commit succeeded |
| Wrappers.RunAcceptedAdds | brt_core/src/indexable.rs:24-28 | Adds that are all accepted stage exactly their documents, in order, and commit nothing |
| Wrappers.StopAtFirstFailureEffect | brt_core/src/indexable.rs:22-30 | A batch that stops at the first rejection commits once if and only if every add was accepted; a rejection leaves the searchable documents unchanged, with the accepted prefix left staged on the index (staging is per index here; see Left out); a successful commit makes every document searchable |
| PolarsDocuments.GetColumns | brt_core/src/polars_documents.rs:35-41 | A column is selected if and only if it is a text column of the frame whose name is one of the index's field names |
| PolarsDocuments.GetColumnsKeepsOrder | brt_core/src/polars_documents.rs:35-41 | The selection keeps the frame's column order: selecting from two runs of columns concatenates the two selections |
| PolarsDocuments.FilterPreservesShape | brt_core/src/polars_documents.rs:36-40 | Filtering a frame's columns keeps their names distinct and their length unchanged |
| PolarsDocuments.GetColumnsHasRows | brt_core/src/polars_documents.rs:35-41 | Every column selected from a well-formed frame has a cell for every row |
| PolarsDocuments.StringColumns | brt_core/src/polars_documents.rs:68-73 | A column is kept if and only if it is a text column of the frame |
| PolarsDocuments.RowDocumentKeys | brt_core/src/polars_documents.rs:43-58 | The keys of a row's document are exactly the names of the text columns |
| PolarsDocuments.RowDocumentValue | brt_core/src/polars_documents.rs:49-56 | With distinct names, each text column's name maps to its cell's text, or to "None" for a null |
| PolarsDocuments.GetRowHashmap | brt_core/src/polars_documents.rs:43-58 | The loop that inserts the cells builds exactly the row's document |
| PolarsDocuments.DfRowsForeach | brt_core/src/polars_documents.rs:60-94 | The callback receives the documents of rows 0, 1, … over all text columns, in row order. It stops at the first error and returns it. It succeeds if and only if the callback accepts every row's document. On success it has received every row; every call but the last succeeded |
| PolarsDocuments.IndexDfRows | brt_core/src/polars_documents.rs:10-31 | The index receives one add per row document, in the scheduler's order, then one commit. The result is the commit's. Only accepted documents are staged, a sub-multiset of the rows. On success they become searchable after the earlier ones; on failure they stay staged |
| PolarsDocuments.LoadTestDf | brt_core/src/polars_documents.rs:111-118 | The example frame is well formed and has two rows |
| PolarsDocuments.TestFrameColumns | brt_core/src/polars_documents.rs:111-118 | Field names that include "body" select the example frame's body column, preceded by its title column exactly when "title" is a field name too |
| PolarsDocuments.TestFrameDocuments | brt_core/src/polars_documents.rs:98-105 | Selected by field names that include "body", the example frame yields, row by row, one document holding that row's body, and also its title exactly when "title" is a field name |
| Indexable.FileDocumentFields | brt_core/src/indexable.rs:13-19 | A file's document has exactly the fields "name" and "contents", holding its path and its text |
| Indexable.LoadFileDoc | brt_core/src/indexable.rs:13-19 | Loading a readable path succeeds with the document of that path and its text |
| Indexable.PathsIndexCollection | brt_core/src/indexable.rs:21-31 | The files are added in path order. The first rejected add is returned at once, with no commit; otherwise one commit follows and its result is returned. The documents staged and made searchable are exactly those the protocol's effect lemma gives |
| Indexable.DataFrameIndexCollection | brt_core/src/indexable.rs:33-38 | Always answers success, whatever the ingestion did. The index receives every row document exactly once, as a multiset, then one commit |
| Indexable.TestIndexingDf | brt_core/src/polars_documents.rs:96-109 | Whatever the schedule, the example index (whose field names include "body") receives the two row documents, one add each, then one commit; each holds its row's body, and its title exactly when "title" is a field name. It holds at most two searchable documents, and exactly two if and only if the engine accepted all three requests |
| Registry.IndexRegistry.constructor | brt_core/src/index_registry.rs:14-18 | A new registry holds no index |
| Registry.IndexRegistry.GetIndexNames | brt_core/src/index_registry.rs:20-26 | The names listed are exactly the registered ones, each once |
| Registry.IndexRegistry.InitializeIndex | brt_core/src/index_registry.rs:28-40 | Always succeeds. It registers a fresh, empty index under the name, with the given fields among its field names, replacing any index already registered there, and keeps every other registration |
| Registry.IndexRegistry.IndexDocument | brt_core/src/index_registry.rs:42-47 | The document goes to the named index only, and is staged exactly when accepted; no registration changes |
| Registry.IndexRegistry.Search | brt_core/src/index_registry.rs:49-54 | The query goes to the named index only; no document of any index changes |
| Registry.IndexRegistry.IndexDf | brt_core/src/index_registry.rs:56-61 | Always succeeds. The named index receives every row document once, then one commit; other indices keep their logs and searchable documents |
| Registry.ReinitializeReplaces | brt_core/src/index_registry.rs:28-40 | Creating a name a second time lists it once and replaces its index: the document sent before is gone |

## Left out

- The search engine is not part of this model: the index wrapper, its batch indexer, tantivy and its schema. Its answers to adds, commits and queries are arbitrary. A failed commit is assumed to change nothing.
- Wrappers.IndexWrapper.constructor: the index's field names, which select the dataframe columns it receives, are only known to include the declared fields. Whether they also hold the identity field is left open. The Python test at pybrt/test/test_rust_bindings.py:8,30-34 expects searches to return titles, which suggests they do. So the example ingestion's documents are stated for both cases.
- Wrappers.BatchIndexer and Indexable.PathsIndexCollection: staging is per index, not per batch. A batch abandoned after a rejected add leaves its accepted documents staged on the index, where a later successful commit of any batch publishes them. What the engine really does with an abandoned batch's documents is not modelled.
- Wrappers.IndexWrapper.Search: the hits are unconstrained, because ranking, tokenisation and query parsing belong to the engine.
- Concurrency of the dataframe ingestion:
  - The rayon workers are modelled as one sequential pass in an arbitrary order `order`.
  - Each add to the index is atomic.
  - The interleaving inside the engine is not modelled.
- The registry's read-write lock is not modelled: the registry is a plain field.
- Registry.IndexRegistry.GetIndexNames: always succeeds; the poisoned-lock error is not modelled. Likewise, the other registry methods have no panic on a poisoned lock.
- Registry.IndexRegistry.IndexDocument, Registry.IndexRegistry.Search and Registry.IndexRegistry.IndexDf: the missing-name panic of the lookup is a precondition, not an error result.
- Indexable.LoadFileDoc: reading a file is a lookup in a map parameter. A file that cannot be read aborts the program, so the path must be in the map. I/O errors other than a missing file are not modelled.
- Indexable.PathsIndexCollection: takes as given the sequence of path elements the collection yields. How iterating a path splits it into components is not modelled. Neither is the panic on a non-UTF-8 path element, since paths are strings here.
- PolarsDocuments.GetRowHashmap: the frame argument, which the source never reads, is dropped.
- PolarsDocuments.DataType: column types other than text are collapsed into one case. Integer widths of row numbers are unbounded, as no realistic frame height can overflow them.
- PolarsDocuments.DfRowsForeach: the callback is a pure function from document to outcome; any side effects it has are not modelled.
- Indexable.TestIndexingDf: the example's assertion of two searchable documents is proved only when the engine accepts both adds and the commit. It is stated as an if-and-only-if over the engine's answers.
- The progress-bar import, the Python bindings, the benchmark and the Python tests are not part of this model.
