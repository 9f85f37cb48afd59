# Multimodal PDF search: page assembly and indexing, modelled in Dafny

This project models the core of a PDF search engine. The engine turns each PDF
page into a record holding its extracted text and a rendered image. It embeds
both into vectors, stores one point per page in a vector database, and answers
text or image queries with result records.

Two parts of the engine are modelled:

- **Page assembly** (`PDFProcessor`). The text pass numbers pages 1..n. The
  rendering pass numbers images 1..m and names each image file after the PDF's
  stem and the page number. `process_pdf` zips the two lists by position and
  skips any pair whose page numbers differ.
- **Indexing and result shaping** (`MultimodalSearch`). The collection is created
  only if it is absent. Pages are indexed in batches of five. Each point gets the
  id `"{pdf_id}_{page_num}"`, the text and image embeddings of its own page, and a
  payload with the text cut to 1000 characters. The store overwrites points by id.
  Each search maps the database's ranked hits one for one into result records.

Files and modules:

- `decimal.dfy` (`Decimal`): how an f-string renders an integer, plus a parser
  that proves the rendering can be inverted.
- `paths.dfy` (`Paths`): `os.path.basename`, the root part of `os.path.splitext`,
  and `os.path.join`, POSIX flavour.
- `pdf_processor.dfy` (`PdfProcessing`): the page records and the class
  `PdfProcessor`.
- `embedding.dfy` (`Embedding`): the embedder as two opaque functions, one from
  text to a vector and one from an image path to a vector. A batch is the
  singular function applied to each input in order.
- `vector_store.dfy` (`VectorIndex`): the database as a class `VectorStore`. It
  holds one collection: an exists flag, the two vector sizes, and a
  `map<string, Point>` keyed by id. Its ranking is an opaque function of the
  stored points and the query.
- `multimodal_search.dfy` (`Retrieval`): batching, ids, payloads, what indexing
  does to the collection, result formatting, and the class `MultimodalSearch`.

Foreign libraries become inputs:

- The PDF libraries become a `PdfDocument`: the text of each page, and the
  number of images the renderer produced.
- The embedding model becomes the two functions of an `Embedder`.
- The database's similarity ranking becomes the `rank` function of the store.
- A database call that is refused becomes a `false` or `None` result instead of
  an exception: creating a collection that exists, or upserting into or
  searching a missing collection.

Three behaviours of the code that the model reproduces:

- Point ids are `"{pdf_id}_{page_num}"` (multimodal_search.py:81), so indexing
  the same page again overwrites its point.
- The collection is created only when it is absent (multimodal_search.py:40-57).
  An existing collection is never recreated or cleared.
- Search does not catch backend errors (multimodal_search.py:116-121). A missing
  collection makes the call fail. It does not return an empty list.

## Model

| member | source | states |
|---|---|---|
| `Decimal.IntToString` | multimodal_search.py:81 | `str(n)` of an int is non-empty and starts with '-' exactly when n is negative; every other character is a digit; the first digit is '0' only for n = 0, and then the whole text is "0", so there are no leading zeros |
| `Decimal.ParseIntToString` | multimodal_search.py:81 | parsing the rendered text gives back the integer, so the rendering loses nothing |
| `Decimal.IntToStringInjective` | pdf_processor.py:69 | two integers render the same exactly when they are equal |
| `Paths.LastIndexOf` | pdf_processor.py:58 | `rfind`: -1 or an index holding the character, with no later occurrence |
| `Paths.LastIndexOfAt` | pdf_processor.py:58 | an occurrence with no later occurrence is the one `rfind` returns |
| `Paths.Basename` | pdf_processor.py:58 | the base name is the suffix of the path after its last '/': it holds no '/', and it is either the whole path or preceded by a '/' |
| `Paths.SplitExtRoot` | pdf_processor.py:58 | the root that `splitext` keeps is a prefix of its input; when it is shorter, the cut is at the last '.', no '.' or '/' follows it, and a character other than '.' precedes it in the last component; when nothing is cut, every character before any '.' of the last component is a '.' |
| `Paths.Stem` | pdf_processor.py:58 | the PDF's stem is a prefix of its base name and holds no '/'; it drops an extension exactly as `splitext` does: from the name's last '.', when a character other than '.' comes before it |
| `Paths.Join` | pdf_processor.py:70 | `os.path.join(a, b)`: an absolute `b` is the result; otherwise `b` follows `a`, with exactly one '/' between them; an empty `a` gives `b`, and an `a` already ending in '/' gives `a + b` |
| `Paths.BasenameOfJoin` | pdf_processor.py:70 | a name without '/' joined onto any directory is the base name of the joined path |
| `Paths.JoinInjective` | pdf_processor.py:70 | joining two relative names onto one directory gives the same path only for the same name |
| `PdfProcessing.ImageFileName` | pdf_processor.py:69 | the image file name starts with the stem and ends in ".png"; it adds no '/' to a stem without one |
| `PdfProcessing.ImagePathInDir` | pdf_processor.py:69-70 | what `ImagePath` computes: the image path starts with the image directory and its base name is the image file name of the PDF's stem and the page number |
| `PdfProcessing.ImageFileNameInjective` | pdf_processor.py:69 | one stem gives two pages the same file name exactly when they have the same page number |
| `PdfProcessing.ImagePathsDistinct` | pdf_processor.py:67-76 | two pages of one PDF get the same image path exactly when they have the same page number |
| `PdfProcessing.Pair` | pdf_processor.py:94 | `zip` gives as many pairs as the shorter list has, each the two entries at the same position |
| `PdfProcessing.Merge` | pdf_processor.py:99-103 | a kept record takes its page number and text from the text entry and its image path from the image entry |
| `PdfProcessing.KeepMatching` | pdf_processor.py:93-103 | the combination has at most one record per pair, and each record is the merge of some pair whose page numbers agree |
| `PdfProcessing.MatchPositionsValid` | pdf_processor.py:93-103 | as many records are kept as there are matching positions, at most one per pair; each position names a pair whose page numbers agree |
| `PdfProcessing.MatchPositionsAscend` | pdf_processor.py:93-103 | the kept positions ascend, so the records come out in zipped order |
| `PdfProcessing.MatchPositionsComplete` | pdf_processor.py:93-103 | every pair whose page numbers agree is among the kept positions |
| `PdfProcessing.KeepMatchingMerges` | pdf_processor.py:93-103 | record i takes number and text from the text entry and path from the image entry of the pair at the i-th kept position |
| `PdfProcessing.KeepMatchingCharacterised` | pdf_processor.py:93-103 | the combination has at most as many records as there are pairs; record i merges the pair at the i-th matching position (number and text from the text entry, path from the image entry); these positions ascend; every matching pair is kept, so a pair is dropped exactly when its page numbers differ |
| `PdfProcessing.AllMatchingKeepsAll` | pdf_processor.py:94-103 | when every pair matches, nothing is dropped and record k merges pair k |
| `PdfProcessing.PdfProcessor.constructor` | pdf_processor.py:11-15 | the three directories are those given, by default "pdfs", "images" and "temp" |
| `PdfProcessing.PdfProcessor.ExtractTextFromPdf` | pdf_processor.py:39-53 | one entry per page in document order; entry k has page number k + 1 and that page's text |
| `PdfProcessing.PdfProcessor.ConvertPdfToImages` | pdf_processor.py:55-78 | one entry per rendered image; entry i has page number i + 1 and path `image_dir/{stem}_page_{i+1}.png` |
| `PdfProcessing.PdfProcessor.ZipPages` | pdf_processor.py:93-103 | the combining loop yields exactly the records of the matching pairs, in zipped order |
| `PdfProcessing.PdfProcessor.ProcessPdf` | pdf_processor.py:80-105 | min(#texts, #images) records; record k has page number k + 1, page k's text (empty text included) and page k's image path |
| `Embedding.Embedder.TextBatch` | multimodal_search.py:70-71 | one text embedding per input, in input order, each the embedding of its own text |
| `Embedding.Embedder.ImageBatch` | multimodal_search.py:74-75 | one image embedding per input path, in input order, each the embedding of its own image |
| `Embedding.Embedder.QueryEmbedding` | multimodal_search.py:113 | a query is embedded as the text embedding a batch of one would give it |
| `VectorIndex.UpsertAppend` | multimodal_search.py:65-104 | upserting batch after batch is upserting all their points in order |
| `VectorIndex.Upsert` | multimodal_search.py:104 | after an upsert the stored ids are exactly the old ids plus the ids of the new points |
| `VectorIndex.UpsertKeys` | multimodal_search.py:104 | after an upsert, the ids present are the old ones plus those of the new points |
| `VectorIndex.UpsertUntouched` | multimodal_search.py:104 | an id that no new point carries keeps its entry, or stays absent |
| `VectorIndex.UpsertLastWins` | multimodal_search.py:104 | an id ends up holding the last point written under it |
| `VectorIndex.UpsertPreserves` | multimodal_search.py:104 | a property held by every old entry and every new point holds of every entry afterwards |
| `VectorIndex.AfterEnsure` | multimodal_search.py:40-57 | after create-if-absent the collection exists; an existing one is untouched; a new one is empty and sized as given |
| `VectorIndex.EnsureIdempotent` | multimodal_search.py:40-57 | creating the collection if absent a second time changes nothing |
| `VectorIndex.VectorStore.constructor` | multimodal_search.py:18 | a server on which the collection does not exist yet |
| `VectorIndex.VectorStore.CollectionExists` | multimodal_search.py:40 | reports whether the collection exists |
| `VectorIndex.VectorStore.CreateCollection` | multimodal_search.py:42-54 | creates an empty collection with the two vector sizes; refused, changing nothing, if it exists |
| `VectorIndex.VectorStore.UpsertPoints` | multimodal_search.py:104 | writes the points by id and changes nothing else; refused, changing nothing, without a collection |
| `VectorIndex.VectorStore.Search` | multimodal_search.py:116-121 | the database's ranked hits for the query; refused without a collection |
| `Retrieval.RangeStepShape` | multimodal_search.py:65 | `range(start, stop, 5)` has (stop - start + 4) / 5 elements, and element b is start + 5b |
| `Retrieval.RangeStep` | multimodal_search.py:65 | `range(start, stop, step)` starts at `start` when it is non-empty, stays within [start, stop), rises by `step` from one element to the next, and ends only where one more step would reach `stop` |
| `Retrieval.BatchCountIsIterations` | multimodal_search.py:65-67 | the batch total in the progress line, `(n + 5 - 1) // 5`, is the number of loop iterations |
| `Retrieval.BatchesFollowRange` | multimodal_search.py:65-66 | batch b is `pages[i:i+5]` for the b-th index `i` of the loop's range |
| `Retrieval.Batches` | multimodal_search.py:64-66 | there is one batch per iteration of the loop, and each batch holds one to five pages |
| `Retrieval.BatchAt` | multimodal_search.py:65-66 | at start index 5b the loop takes batch b, the pages from 5b up to 5b + 5 or the end |
| `Retrieval.BatchesPrefix` | multimodal_search.py:64-66 | the first c batches together are the first min(5c, n) pages |
| `Retrieval.BatchesPartition` | multimodal_search.py:64-66 | the batches together are the page list in order, each page once, and each batch has one to five pages |
| `Retrieval.PointId` | multimodal_search.py:81 | the id starts with the PDF id; its last '_' sits right after the PDF id; what follows is the page number as `str` renders it |
| `Retrieval.PointIdInjective` | multimodal_search.py:81 | two ids `"{pdf_id}_{page_num}"` are equal exactly when both the PDF ids and the page numbers are equal |
| `Retrieval.PreviewText` | multimodal_search.py:87 | the preview is a prefix of the text, at most 1000 characters long, the whole text when that has at most 1000 characters, and exactly 1000 otherwise |
| `Retrieval.PagePayload` | multimodal_search.py:84-89 | pdf_id, page_num and image_path are copied unchanged; the text is a prefix of the page text, at most 1000 characters long, and the whole text when it is short |
| `Retrieval.PagePointOfPage` | multimodal_search.py:79-99 | what `PagePoint` computes: a page's point has the id of the PDF and page named in its payload, the text embedding of the page's own text, the image embedding of its own image, and a payload text that is a prefix of the page text of at most 1000 characters |
| `Retrieval.PagePoints` | multimodal_search.py:78-101 | one point per page, in page order, each the point of its own page |
| `Retrieval.PagePointsAppend` | multimodal_search.py:78-101 | a batch's points follow those of the pages before it |
| `Retrieval.PagePointsElementwise` | multimodal_search.py:78-101 | a list holding each page's point in page order is the pages' points |
| `Retrieval.IndexingStep` | multimodal_search.py:65-104 | upserting the next batch's points after those of the pages before it is upserting the points of all pages up to the batch's end |
| `Retrieval.IndexedPageStored` | multimodal_search.py:79-104 | after indexing, page j's id holds page j's point (its id, its own text and image vectors, its payload), unless a later page has the same page number and overwrites it |
| `Retrieval.IndexingLeavesOthers` | multimodal_search.py:81-104 | ids other than those of the indexed pages keep their entries |
| `Retrieval.SecondPdfKeepsFirst` | multimodal_search.py:81-104 | indexing a PDF under another id never overwrites a point of an earlier PDF |
| `Retrieval.IdsOfDistinct` | multimodal_search.py:104 | points with distinct ids have as many ids as points |
| `Retrieval.UpsertFreshCount` | multimodal_search.py:104 | upserting points with distinct ids, none stored yet, adds exactly one entry per point |
| `Retrieval.IndexingAddsOnePointPerPage` | multimodal_search.py:59-106 | indexing n pages with distinct page numbers, under ids not yet stored, adds exactly n points |
| `Retrieval.ProcessedPdfFullyIndexed` | multimodal_search.py:59-106 | the pages of one processed PDF (numbered 1..n), under a new PDF id, give n new points, each page's point under its own id |
| `Retrieval.IndexingKeepsPreviewsBounded` | multimodal_search.py:87-104 | if every stored payload text has at most 1000 characters, that stays so after indexing |
| `Retrieval.ResultPreviewsBounded` | multimodal_search.py:124-134 | results built from stored points never show more than 1000 characters of text |
| `Retrieval.SearchRoundTrip` | multimodal_search.py:124-134 | a hit on an indexed page's point yields that PDF id, page number and image path, and the page text cut to 1000 characters |
| `Retrieval.MultimodalSearch.constructor` | multimodal_search.py:10-32 | keeps the embedder, the store and the collection name ("pdf-search" by default), then creates the collection if absent, sized by the embeddings of "Sample text" and of images/placeholder.jpg |
| `Retrieval.MultimodalSearch.EnsureCollectionExists` | multimodal_search.py:34-57 | the collection exists afterwards; an existing one is unchanged; a new one is empty and sized by the two sample embeddings |
| `Retrieval.MultimodalSearch.IndexPdfPages` | multimodal_search.py:59-106 | succeeds exactly when the collection exists or there are no pages; on success the stored points are the old ones with all the pages' points upserted in page order; on failure nothing changes; the flag and the sizes never change |
| `Retrieval.MultimodalSearch.BatchPoints` | multimodal_search.py:69-101 | one point per page of the batch; the j-th point carries the j-th text embedding and the j-th image embedding, both of the j-th page |
| `Retrieval.MultimodalSearch.FormatResults` | multimodal_search.py:123-134 | one result per hit, in hit order, with pdf_id, page_num, image_path and score passed through and text_preview equal to the payload text |
| `Retrieval.MultimodalSearch.SearchByText` | multimodal_search.py:108-134 | queries the vector field `using` ("text" by default) with the embedded query text and the limit (3 by default); the results format the database's hits; of the failures, only a missing collection is modelled (embedding failures are listed under Left out) |
| `Retrieval.MultimodalSearch.SearchByImage` | multimodal_search.py:136-162 | always queries the "image" field with the embedded image and the limit (3 by default); the results format the database's hits; of the failures, only a missing collection is modelled (embedding failures are listed under Left out) |

## Left out

- `save_uploaded_pdf` (pdf_processor.py:22-37): copying an upload to disk is file I/O. It computes no value the rest of the core uses.
- File-system effects: the `os.makedirs` calls, creating the placeholder image, the temporary directory, and `image.save`. Only the path strings are modelled.
- The `dpi` argument of `convert_pdf_to_images`: it changes only the raster content, never the numbering or the file names.
- A PDF that cannot be opened or parsed raises inside the PDF libraries. The model's `PdfDocument` is always readable.
- The embedding model's numbers, padding and truncation. Batch embedding is modelled as the singular embedding applied to each input. The real batch call truncates long texts, and the singular call does not.
- The database's ranking, its handling of `limit`, and the cosine scores. Scores are passed through as `real`, with no arithmetic on them.
- Checks the database library itself makes: vector sizes that do not match the collection, a vector name other than "text" or "image", and ids that are not UUIDs or unsigned integers. The code cannot see these.
- Several points with the same id in one upsert call are modelled as last one wins. This is what upserting them one at a time gives.
- `collection_name`: the store models the one collection the engine uses.
- `uuid.uuid4()` ids and all `print` logging. The batch total in the progress line is proved equal to the loop's iteration count instead.
- The HTTP routes and the command-line front end.
- Retrieval.MultimodalSearch.IndexPdfPages: a foreign call that raises partway through the loop is not modelled. In the code, an embedding call (an unreadable image file, say) or the upsert raising on batch b > 0 leaves batches 0 to b - 1 already written. The model's embedder is total, and its upsert is refused only when the collection is missing, which the loop never changes. So the method fails only before its first write, and changes nothing when it does.
- Retrieval.MultimodalSearch.SearchByImage, Retrieval.MultimodalSearch.SearchByText: embedding failures are not modelled. In the code, `get_image_embedding` opens the image file (clip_embedder.py:18), so a missing or unreadable file raises. Whether an over-long query text raises depends on the embedding library, which is not part of this model. The model's embedder is total, so it returns results where the code raises; its only failure is a missing collection.
- The upsert at multimodal_search.py:104 (`upsert_points`) is taken to be the database's upsert by id. The client library is not part of this model, so whether it offers a method under that name is not checked here.
