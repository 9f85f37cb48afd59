/**
 * The retrieval engine: it creates the collection if absent, indexes page
 * records in batches of five (one point per page, carrying the page's text
 * and image embeddings and a payload with a text preview), and turns the
 * database's ranked hits into result records.
 */
module Retrieval {
  import opened Decimal
  import opened Embedding
  import opened VectorIndex
  import opened PdfProcessing
  import Paths

  const BatchSize: nat := 5

  /** The number of characters of page text kept in a payload. */
  const PreviewLength: nat := 1000

  /** The text whose embedding fixes the size of the "text" vectors. */
  const SampleText: string := "Sample text"

  /** `os.path.join("images", "placeholder.jpg")`, whose embedding fixes the size of the "image" vectors. */
  const PlaceholderPath: string := "images/placeholder.jpg"

  datatype SearchResult = SearchResult(pdfId: string, pageNum: int, textPreview: string, imagePath: string, score: real)

  // ---------------------------------------------------------------------------
  // Batching

  /** Python's `range(start, stop, step)` for a positive step. */
  function RangeStep(start: nat, stop: nat, step: nat): (r: seq<nat>)
    requires step > 0
    ensures start < stop ==> |r| > 0 && r[0] == start
    ensures forall b :: 0 <= b < |r| ==> start <= r[b] < stop
    ensures forall b :: 0 < b < |r| ==> r[b] == r[b - 1] + step
    ensures |r| > 0 ==> r[|r| - 1] + step >= stop
    decreases stop - start
  {
    if start >= stop then [] else [start] + RangeStep(start + step, stop, step)
  }

  /** `range(start, stop, 5)` counts up from `start` in steps of five. */
  lemma {:induction false} RangeStepShape(start: nat, stop: nat)
    ensures |RangeStep(start, stop, BatchSize)| == if start < stop then (stop - start + 4) / 5 else 0
    ensures forall b :: 0 <= b < |RangeStep(start, stop, BatchSize)| ==>
      RangeStep(start, stop, BatchSize)[b] == start + BatchSize * b
    decreases stop - start
  {
    if start < stop {
      RangeStepShape(start + BatchSize, stop);
    }
  }

  /** The batch number shown in the progress line, `(n + 5 - 1) // 5`, is the number of iterations of the loop. */
  lemma BatchCountIsIterations(n: nat)
    ensures |RangeStep(0, n, BatchSize)| == (n + BatchSize - 1) / BatchSize
  {
    RangeStepShape(0, n);
  }

  /**
   * `[pages[i:i+5] for i in range(0, len(pages), 5)]`: one batch per
   * iteration of the loop, each of one to five pages.
   */
  function Batches(pages: seq<Page>): (bs: seq<seq<Page>>)
    ensures |bs| == |RangeStep(0, |pages|, BatchSize)|
    ensures forall b :: 0 <= b < |bs| ==> 0 < |bs[b]| <= BatchSize
  {
    RangeStepShape(0, |pages|);
    seq((|pages| + 4) / 5, b requires 0 <= b < (|pages| + 4) / 5 =>
      pages[BatchSize * b..Min(BatchSize * b + BatchSize, |pages|)])
  }

  /** The batch the loop takes at start index 5b. */
  lemma BatchAt(pages: seq<Page>, b: nat)
    requires BatchSize * b < |pages|
    ensures b < |Batches(pages)|
    ensures Batches(pages)[b] == pages[BatchSize * b..Min(BatchSize * b + BatchSize, |pages|)]
  {
  }

  function Flatten<T>(bs: seq<seq<T>>): seq<T>
    decreases |bs|
  {
    if bs == [] then [] else Flatten(bs[..|bs| - 1]) + bs[|bs| - 1]
  }

  /** Batch b is the slice the loop takes at its b-th start index. */
  lemma BatchesFollowRange(pages: seq<Page>)
    ensures |Batches(pages)| == |RangeStep(0, |pages|, BatchSize)|
    ensures forall b :: 0 <= b < |Batches(pages)| ==>
      var i := RangeStep(0, |pages|, BatchSize)[b];
      i < |pages| && Batches(pages)[b] == pages[i..Min(i + BatchSize, |pages|)]
  {
    RangeStepShape(0, |pages|);
  }

  lemma {:induction false} BatchesPrefix(pages: seq<Page>, c: nat)
    requires c <= |Batches(pages)|
    ensures Flatten(Batches(pages)[..c]) == pages[..Min(BatchSize * c, |pages|)]
    decreases c
  {
    if c > 0 {
      var bs := Batches(pages)[..c];
      assert bs[..c - 1] == Batches(pages)[..c - 1];
      BatchesPrefix(pages, c - 1);
      assert pages[..Min(BatchSize * c, |pages|)]
          == pages[..BatchSize * (c - 1)] + pages[BatchSize * (c - 1)..Min(BatchSize * c, |pages|)];
    }
  }

  /** The batches cover every page exactly once, in order, and each holds one to five pages. */
  lemma BatchesPartition(pages: seq<Page>)
    ensures Flatten(Batches(pages)) == pages
    ensures forall b :: 0 <= b < |Batches(pages)| ==> 0 < |Batches(pages)[b]| <= BatchSize
  {
    var bs := Batches(pages);
    BatchesPrefix(pages, |bs|);
    assert bs[..|bs|] == bs;
    assert pages[..Min(BatchSize * |bs|, |pages|)] == pages;
  }

  // ---------------------------------------------------------------------------
  // Points

  /**
   * `f"{pdf_id}_{page_num}"`: the PDF id, then '_', then the page number.
   * The number holds no '_', so the last '_' of the id marks where the PDF
   * id ends.
   */
  function PointId(pdfId: string, pageNum: int): (id: string)
    ensures |pdfId| < |id| && id[..|pdfId|] == pdfId
    ensures Paths.LastIndexOf(id, '_') == |pdfId|
    ensures id[|pdfId| + 1..] == IntToString(pageNum)
  {
    var digits := IntToString(pageNum);
    var id := pdfId + "_" + digits;
    assert forall k :: 0 <= k < |digits| ==> digits[k] != '_';
    UnderscoreOnlyAt(pdfId, digits, id);
    Paths.LastIndexOfAt(id, '_', |pdfId|);
    assert id[|pdfId| + 1..] == digits;
    id
  }

  /**
   * A point id determines the PDF and the page: the rendered page number holds
   * no '_', so the last '_' of the id is the one after the PDF id.
   */
  lemma PointIdInjective(a: string, p: int, b: string, q: int)
    ensures PointId(a, p) == PointId(b, q) <==> a == b && p == q
  {
    if PointId(a, p) == PointId(b, q) {
      IntToStringInjective(p, q);
    }
  }

  /** In `a + "_" + x`, where `x` has no '_', the '_' after `a` is the last one. */
  lemma UnderscoreOnlyAt(a: string, x: string, s: string)
    requires forall k :: 0 <= k < |x| ==> x[k] != '_'
    requires s == a + "_" + x
    ensures |a| < |s| && s[|a|] == '_'
    ensures forall k | |a| < k < |s| :: s[k] != '_'
  {
    forall k | |a| < k < |s| ensures s[k] != '_' {
      assert s[k] == x[k - |a| - 1];
    }
  }

  /** The payload's text preview: the first 1000 characters. */
  function PreviewText(text: string): (preview: string)
    ensures |preview| <= PreviewLength
    ensures preview <= text
    ensures |text| <= PreviewLength ==> preview == text
    ensures |text| > PreviewLength ==> |preview| == PreviewLength
  {
    if |text| > PreviewLength then text[..PreviewLength] else text
  }

  /** The payload of a page: ids and path copied, text cut to its preview. */
  function PagePayload(pdfId: string, page: Page): (payload: Payload)
    ensures payload.pdfId == pdfId && payload.pageNum == page.pageNum && payload.imagePath == page.imagePath
    ensures |payload.text| <= PreviewLength && payload.text <= page.text
    ensures |page.text| <= PreviewLength ==> payload.text == page.text
  {
    Payload(pdfId, page.pageNum, PreviewText(page.text), page.imagePath)
  }

  /** The point indexed for a page. */
  function PagePoint(model: Embedder, pdfId: string, page: Page): Point
  {
    Point(PointId(pdfId, page.pageNum), model.text(page.text), model.image(page.imagePath), PagePayload(pdfId, page))
  }

  /**
   * A page's point: its id names the PDF and the page its payload names,
   * its two vectors embed that page's own text and image, and its payload
   * text is the page text's preview.
   */
  lemma PagePointOfPage(model: Embedder, pdfId: string, page: Page)
    ensures var pt := PagePoint(model, pdfId, page);
      pt.id == PointId(pt.payload.pdfId, pt.payload.pageNum) &&
      pt.payload.pdfId == pdfId && pt.payload.pageNum == page.pageNum &&
      pt.payload.imagePath == page.imagePath &&
      pt.payload.text <= page.text && |pt.payload.text| <= PreviewLength &&
      pt.textVector == model.text(page.text) && pt.imageVector == model.image(page.imagePath)
  {
  }

  function PagePoints(model: Embedder, pdfId: string, pages: seq<Page>): (pts: seq<Point>)
    ensures |pts| == |pages|
    ensures forall j :: 0 <= j < |pages| ==> pts[j] == PagePoint(model, pdfId, pages[j])
  {
    seq(|pages|, j requires 0 <= j < |pages| => PagePoint(model, pdfId, pages[j]))
  }

  // ---------------------------------------------------------------------------
  // What indexing does to the collection

  /**
   * After indexing, the id of page j holds page j's point (its vectors and
   * payload), unless a later page of the same call has the same page number,
   * which then overwrites it.
   */
  lemma IndexedPageStored(m: map<string, Point>, model: Embedder, pdfId: string, pages: seq<Page>, j: nat)
    requires j < |pages|
    requires forall k :: j < k < |pages| ==> pages[k].pageNum != pages[j].pageNum
    ensures PointId(pdfId, pages[j].pageNum) in Upsert(m, PagePoints(model, pdfId, pages))
    ensures Upsert(m, PagePoints(model, pdfId, pages))[PointId(pdfId, pages[j].pageNum)] == PagePoint(model, pdfId, pages[j])
  {
    var pts := PagePoints(model, pdfId, pages);
    forall k | j < k < |pts| ensures pts[k].id != pts[j].id {
      PointIdInjective(pdfId, pages[k].pageNum, pdfId, pages[j].pageNum);
    }
    UpsertLastWins(m, pts, j);
  }

  /** Indexing leaves every entry alone whose id is not that of one of the indexed pages. */
  lemma IndexingLeavesOthers(m: map<string, Point>, model: Embedder, pdfId: string, pages: seq<Page>, id: string)
    requires forall k :: 0 <= k < |pages| ==> id != PointId(pdfId, pages[k].pageNum)
    ensures id in Upsert(m, PagePoints(model, pdfId, pages)) <==> id in m
    ensures id in m ==> Upsert(m, PagePoints(model, pdfId, pages))[id] == m[id]
  {
    UpsertUntouched(m, PagePoints(model, pdfId, pages), id);
  }

  /** Indexing a second PDF under another id never overwrites a point of the first. */
  lemma SecondPdfKeepsFirst(m: map<string, Point>, model: Embedder, pdfA: string, pagesA: seq<Page>,
                            pdfB: string, pagesB: seq<Page>, j: nat)
    requires pdfA != pdfB
    requires j < |pagesA|
    requires forall k :: j < k < |pagesA| ==> pagesA[k].pageNum != pagesA[j].pageNum
    ensures var after := Upsert(Upsert(m, PagePoints(model, pdfA, pagesA)), PagePoints(model, pdfB, pagesB));
      PointId(pdfA, pagesA[j].pageNum) in after &&
      after[PointId(pdfA, pagesA[j].pageNum)] == PagePoint(model, pdfA, pagesA[j])
  {
    var id := PointId(pdfA, pagesA[j].pageNum);
    IndexedPageStored(m, model, pdfA, pagesA, j);
    forall k | 0 <= k < |pagesB| ensures id != PointId(pdfB, pagesB[k].pageNum) {
      PointIdInjective(pdfA, pagesA[j].pageNum, pdfB, pagesB[k].pageNum);
    }
    IndexingLeavesOthers(Upsert(m, PagePoints(model, pdfA, pagesA)), model, pdfB, pagesB, id);
  }

  /** A list holding each page's point, in page order, is the pages' points. */
  lemma PagePointsElementwise(model: Embedder, pdfId: string, pages: seq<Page>, pts: seq<Point>)
    requires |pts| == |pages|
    requires forall j :: 0 <= j < |pages| ==> pts[j] == PagePoint(model, pdfId, pages[j])
    ensures pts == PagePoints(model, pdfId, pages)
  {
  }

  lemma PagePointsAppend(model: Embedder, pdfId: string, pages: seq<Page>, i: nat, j: nat)
    requires i <= j <= |pages|
    ensures PagePoints(model, pdfId, pages[..i]) + PagePoints(model, pdfId, pages[i..j]) == PagePoints(model, pdfId, pages[..j])
  {
  }

  /** Upserting the points of the next batch extends the pages indexed so far by that batch. */
  lemma IndexingStep(m: map<string, Point>, model: Embedder, pdfId: string, pages: seq<Page>, i: nat)
    requires i < |pages|
    ensures var j := Min(i + BatchSize, |pages|);
      Upsert(Upsert(m, PagePoints(model, pdfId, pages[..i])), PagePoints(model, pdfId, pages[i..j]))
      == Upsert(m, PagePoints(model, pdfId, pages[..j]))
  {
    var j := Min(i + BatchSize, |pages|);
    UpsertAppend(m, PagePoints(model, pdfId, pages[..i]), PagePoints(model, pdfId, pages[i..j]));
    PagePointsAppend(model, pdfId, pages, i, j);
  }

  lemma {:induction false} IdsOfDistinct(pts: seq<Point>)
    requires forall i, k :: 0 <= i < k < |pts| ==> pts[i].id != pts[k].id
    ensures |Ids(pts)| == |pts|
    ensures forall id :: id in Ids(pts) <==> HasId(pts, id)
    decreases |pts|
  {
    if pts != [] {
      var rest := pts[1..];
      IdsOfDistinct(rest);
      forall k | 0 <= k < |rest| ensures rest[k].id != pts[0].id {
        assert rest[k] == pts[k + 1];
      }
      forall id | HasId(pts, id) ensures id in Ids(pts) {
        var k :| 0 <= k < |pts| && pts[k].id == id;
        if k > 0 { assert rest[k - 1].id == id; }
      }
      forall id | HasId(rest, id) ensures HasId(pts, id) {
        var k :| 0 <= k < |rest| && rest[k].id == id;
        assert pts[k + 1].id == id;
      }
    }
  }

  /**
   * Indexing n pages with distinct page numbers, none of whose ids is in the
   * collection yet, adds exactly n points.
   */
  lemma IndexingAddsOnePointPerPage(m: map<string, Point>, model: Embedder, pdfId: string, pages: seq<Page>)
    requires forall i, k :: 0 <= i < k < |pages| ==> pages[i].pageNum != pages[k].pageNum
    requires forall k :: 0 <= k < |pages| ==> PointId(pdfId, pages[k].pageNum) !in m
    ensures |Upsert(m, PagePoints(model, pdfId, pages))| == |m| + |pages|
  {
    var pts := PagePoints(model, pdfId, pages);
    forall i, k | 0 <= i < k < |pts| ensures pts[i].id != pts[k].id {
      PointIdInjective(pdfId, pages[i].pageNum, pdfId, pages[k].pageNum);
    }
    forall k | 0 <= k < |pts| ensures pts[k].id !in m {
      assert pts[k].id == PointId(pdfId, pages[k].pageNum);
    }
    UpsertFreshCount(m, pts);
  }

  /** Upserting points with distinct ids, none of them stored yet, adds one entry per point. */
  lemma UpsertFreshCount(m: map<string, Point>, pts: seq<Point>)
    requires forall i, k :: 0 <= i < k < |pts| ==> pts[i].id != pts[k].id
    requires forall k :: 0 <= k < |pts| ==> pts[k].id !in m
    ensures |Upsert(m, pts)| == |m| + |pts|
  {
    IdsOfDistinct(pts);
    UpsertKeys(m, pts);
    var after := Upsert(m, pts);
    assert after.Keys == m.Keys + Ids(pts);
    assert m.Keys !! Ids(pts);
    assert |after.Keys| == |m.Keys| + |Ids(pts)|;
  }

  /**
   * The pages of one processed PDF (numbered 1..n) indexed under a PDF id the
   * collection has not seen: exactly n new points, each page's under its id.
   */
  lemma ProcessedPdfFullyIndexed(m: map<string, Point>, model: Embedder, pdfId: string, pages: seq<Page>)
    requires forall k :: 0 <= k < |pages| ==> pages[k].pageNum == k + 1
    requires forall k :: 0 <= k < |pages| ==> PointId(pdfId, pages[k].pageNum) !in m
    ensures |Upsert(m, PagePoints(model, pdfId, pages))| == |m| + |pages|
    ensures forall k :: 0 <= k < |pages| ==> IndexedAs(Upsert(m, PagePoints(model, pdfId, pages)), model, pdfId, pages[k])
  {
    IndexingAddsOnePointPerPage(m, model, pdfId, pages);
    forall k | 0 <= k < |pages|
      ensures IndexedAs(Upsert(m, PagePoints(model, pdfId, pages)), model, pdfId, pages[k])
    {
      IndexedPageStored(m, model, pdfId, pages, k);
    }
  }

  /** The collection holds the point of `page` under that page's id. */
  ghost predicate IndexedAs(points: map<string, Point>, model: Embedder, pdfId: string, page: Page) {
    PointId(pdfId, page.pageNum) in points && points[PointId(pdfId, page.pageNum)] == PagePoint(model, pdfId, page)
  }

  /** Every payload text in the collection is at most 1000 characters long. */
  ghost predicate PreviewsBounded(points: map<string, Point>) {
    forall id :: id in points ==> |points[id].payload.text| <= PreviewLength
  }

  /** Indexing keeps every payload text within the preview length. */
  lemma IndexingKeepsPreviewsBounded(m: map<string, Point>, model: Embedder, pdfId: string, pages: seq<Page>)
    requires PreviewsBounded(m)
    ensures PreviewsBounded(Upsert(m, PagePoints(model, pdfId, pages)))
  {
    var bounded := (p: Point) => |p.payload.text| <= PreviewLength;
    UpsertPreserves(m, PagePoints(model, pdfId, pages), bounded);
  }

  // ---------------------------------------------------------------------------
  // Search results

  /** Results are the hits one for one, in order, with the payload fields and the score passed through. */
  ghost predicate Formats(results: seq<SearchResult>, hits: seq<Hit>) {
    |results| == |hits| &&
    forall k :: 0 <= k < |hits| ==>
      results[k].pdfId == hits[k].payload.pdfId &&
      results[k].pageNum == hits[k].payload.pageNum &&
      results[k].textPreview == hits[k].payload.text &&
      results[k].imagePath == hits[k].payload.imagePath &&
      results[k].score == hits[k].score
  }

  /** Every hit is a point of the collection, with the payload stored for it. */
  ghost predicate HitsFrom(hits: seq<Hit>, points: map<string, Point>) {
    forall k :: 0 <= k < |hits| ==> hits[k].id in points && hits[k].payload == points[hits[k].id].payload
  }

  /** No result ever shows more than the preview length of text. */
  lemma ResultPreviewsBounded(results: seq<SearchResult>, hits: seq<Hit>, points: map<string, Point>)
    requires PreviewsBounded(points) && HitsFrom(hits, points) && Formats(results, hits)
    ensures forall k :: 0 <= k < |results| ==> |results[k].textPreview| <= PreviewLength
  {
    forall k | 0 <= k < |results| ensures |results[k].textPreview| <= PreviewLength {
      assert hits[k].id in points;
    }
  }

  /**
   * Round trip: a hit on the point of an indexed page yields a result naming
   * that PDF and page, its image, and its text cut to the first 1000 characters.
   */
  lemma SearchRoundTrip(m: map<string, Point>, model: Embedder, pdfId: string, pages: seq<Page>, j: nat,
                        hits: seq<Hit>, results: seq<SearchResult>, k: nat)
    requires j < |pages|
    requires forall i :: j < i < |pages| ==> pages[i].pageNum != pages[j].pageNum
    requires HitsFrom(hits, Upsert(m, PagePoints(model, pdfId, pages))) && Formats(results, hits)
    requires k < |hits| && hits[k].id == PointId(pdfId, pages[j].pageNum)
    ensures results[k].pdfId == pdfId && results[k].pageNum == pages[j].pageNum
    ensures results[k].textPreview == PreviewText(pages[j].text)
    ensures results[k].imagePath == pages[j].imagePath
  {
    IndexedPageStored(m, model, pdfId, pages, j);
  }

  // ---------------------------------------------------------------------------
  // The engine

  class MultimodalSearch {
    const model: Embedder
    const client: VectorStore
    const collectionName: string

    /** Connects to the store and makes sure the collection exists. */
    constructor (model: Embedder, client: VectorStore, collectionName: string := "pdf-search")
      requires client.Valid()
      modifies client
      ensures this.model == model && this.client == client && this.collectionName == collectionName
      ensures client.Valid()
      ensures client.State() ==
        AfterEnsure(old(client.State()), |model.text(SampleText)|, |model.image(PlaceholderPath)|)
    {
      this.model := model;
      this.client := client;
      this.collectionName := collectionName;
      new;
      EnsureCollectionExists(PlaceholderPath);
    }

    /** Creates the collection, sized by two sample embeddings, only if it does not exist. */
    method EnsureCollectionExists(placeholderImagePath: string)
      requires client.Valid()
      modifies client
      ensures client.Valid()
      ensures client.State() ==
        AfterEnsure(old(client.State()), |model.text(SampleText)|, |model.image(placeholderImagePath)|)
    {
      var sampleTextEmbedding := model.text(SampleText);
      var sampleImageEmbedding := model.image(placeholderImagePath);
      var present := client.CollectionExists();
      if !present {
        var created := client.CreateCollection(|sampleTextEmbedding|, |sampleImageEmbedding|);
      }
    }

    /**
     * Indexes the pages in batches of five. The collection ends up holding the
     * pages' points written by id in page order; the call fails, changing
     * nothing, when there is a page to write but no collection.
     */
    method IndexPdfPages(pdfPages: seq<Page>, pdfId: string) returns (ok: bool)
      requires client.Valid()
      modifies client
      ensures client.Valid()
      ensures ok <==> old(client.hasCollection) || |pdfPages| == 0
      ensures client.State() ==
        if ok then old(client.State()).(points := Upsert(old(client.points), PagePoints(model, pdfId, pdfPages)))
        else old(client.State())
    {
      var n := |pdfPages|;
      ok := true;
      var i := 0;
      ghost var b := 0;
      while i < n
        invariant i == BatchSize * b
        invariant i > 0 ==> old(client.hasCollection)
        invariant client.Valid()
        invariant client.hasCollection == old(client.hasCollection)
        invariant client.textSize == old(client.textSize) && client.imageSize == old(client.imageSize)
        invariant client.points == Upsert(old(client.points), PagePoints(model, pdfId, pdfPages[..Min(i, n)]))
      {
        var batch := pdfPages[i..Min(i + BatchSize, n)];
        BatchAt(pdfPages, b);
        assert batch == Batches(pdfPages)[b];

        var points := BatchPoints(batch, pdfId);
        var uploaded := client.UpsertPoints(points);
        if !uploaded {
          ok := false;
          return;
        }
        IndexingStep(old(client.points), model, pdfId, pdfPages, i);
        i := i + BatchSize;
        b := b + 1;
      }
      assert pdfPages[..Min(i, n)] == pdfPages;
    }

    /**
     * The points of one batch: the batch's texts and images are embedded in
     * one call each, and the j-th vectors of both go with the j-th page.
     */
    method BatchPoints(batch: seq<Page>, pdfId: string) returns (points: seq<Point>)
      ensures |points| == |batch|
      ensures forall j :: 0 <= j < |batch| ==> points[j] == PagePoint(model, pdfId, batch[j])
      ensures points == PagePoints(model, pdfId, batch)
    {
      var textContents := seq(|batch|, k requires 0 <= k < |batch| => batch[k].text);
      var textEmbeddings := model.TextBatch(textContents);
      var imagePaths := seq(|batch|, k requires 0 <= k < |batch| => batch[k].imagePath);
      var imageEmbeddings := model.ImageBatch(imagePaths);

      points := [];
      var j := 0;
      while j < |batch|
        invariant 0 <= j <= |batch|
        invariant |points| == j
        invariant forall k :: 0 <= k < j ==> points[k] == PagePoint(model, pdfId, batch[k])
      {
        var page := batch[j];
        var pointId := PointId(pdfId, page.pageNum);
        var payload := PagePayload(pdfId, page);
        var point := Point(pointId, textEmbeddings[j], imageEmbeddings[j], payload);
        assert point == PagePoint(model, pdfId, page);
        points := points + [point];
        j := j + 1;
      }
      PagePointsElementwise(model, pdfId, batch, points);
    }

    /** Turns the database's hits into result records, one per hit, in order. */
    method FormatResults(hits: seq<Hit>) returns (formatted: seq<SearchResult>)
      ensures Formats(formatted, hits)
    {
      formatted := [];
      var k := 0;
      while k < |hits|
        invariant 0 <= k <= |hits|
        invariant Formats(formatted, hits[..k])
      {
        var result := hits[k];
        formatted := formatted + [SearchResult(result.payload.pdfId, result.payload.pageNum, result.payload.text,
                                               result.payload.imagePath, result.score)];
        k := k + 1;
      }
      assert hits[..k] == hits;
    }

    /** Embeds the query text and searches the vector field `using` ("text" unless told otherwise). */
    method SearchByText(queryText: string, limit: int := 3, using: string := "text")
      returns (results: Option<seq<SearchResult>>)
      ensures results.None? <==> !client.hasCollection
      ensures results.Some? ==>
        Formats(results.value, client.rank(client.points, Query(using, model.QueryEmbedding(queryText), limit)))
    {
      var queryEmbedding := model.QueryEmbedding(queryText);
      var hits := client.Search(Query(using, queryEmbedding, limit));
      if hits.None? {
        return None;
      }
      var formatted := FormatResults(hits.value);
      results := Some(formatted);
    }

    /** Embeds the query image and always searches the "image" vector field. */
    method SearchByImage(imagePath: string, limit: int := 3) returns (results: Option<seq<SearchResult>>)
      ensures results.None? <==> !client.hasCollection
      ensures results.Some? ==>
        Formats(results.value, client.rank(client.points, Query("image", model.image(imagePath), limit)))
    {
      var imageEmbedding := model.image(imagePath);
      var hits := client.Search(Query("image", imageEmbedding, limit));
      if hits.None? {
        return None;
      }
      var formatted := FormatResults(hits.value);
      results := Some(formatted);
    }
  }
}
