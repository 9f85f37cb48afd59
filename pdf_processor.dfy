/**
 * Page assembly: the text-extraction pass, the rendering pass and the
 * position-wise combination of the two into page records.
 *
 * The PDF libraries are represented by `PdfDocument`: the text each page
 * yields when extracted, and the number of raster images the renderer
 * produces. The two counts are independent inputs, as they are two
 * different libraries reading the same file.
 */
module PdfProcessing {
  import opened Decimal
  import opened Paths

  datatype PdfDocument = PdfDocument(pageTexts: seq<string>, imageCount: nat)

  /** An entry of the text-extraction pass. */
  datatype PageText = PageText(pageNum: int, text: string)

  /** An entry of the rendering pass. */
  datatype PageImage = PageImage(pageNum: int, imagePath: string)

  /** A combined page record. */
  datatype Page = Page(pageNum: int, text: string, imagePath: string)

  function Min(a: int, b: int): int {
    if a <= b then a else b
  }

  /**
   * The name the renderer gives the image of page `pageNum`: the stem, then
   * "_page_" and the number, then ".png"; it adds no '/' of its own.
   */
  function ImageFileName(stem: string, pageNum: int): (name: string)
    ensures |stem| < |name| && name[..|stem|] == stem
    ensures |name| >= 4 && name[|name| - 4..] == ".png"
    ensures name[0] != '/' || (|stem| > 0 && stem[0] == '/')
    ensures '/' !in stem ==> '/' !in name
  {
    var digits := IntToString(pageNum);
    var name := stem + "_page_" + digits + ".png";
    assert forall k :: 0 <= k < |digits| ==> digits[k] != '/';
    assert forall k :: |stem| + 6 <= k < |stem| + 6 + |digits| ==> name[k] == digits[k - |stem| - 6];
    name
  }

  /** Where the image of page `pageNum` of the PDF at `pdfPath` is stored. */
  function ImagePath(imageDir: string, pdfPath: string, pageNum: int): string {
    Join(imageDir, ImageFileName(Stem(pdfPath), pageNum))
  }

  /** The image lies directly inside `imageDir`, under the name built from the PDF's stem. */
  lemma ImagePathInDir(imageDir: string, pdfPath: string, pageNum: int)
    ensures imageDir <= ImagePath(imageDir, pdfPath, pageNum)
    ensures Basename(ImagePath(imageDir, pdfPath, pageNum)) == ImageFileName(Stem(pdfPath), pageNum)
  {
    BasenameOfJoin(imageDir, ImageFileName(Stem(pdfPath), pageNum));
  }

  /** Distinct pages of one stem get distinct file names. */
  lemma ImageFileNameInjective(stem: string, a: int, b: int)
    ensures ImageFileName(stem, a) == ImageFileName(stem, b) <==> a == b
  {
    var x, y := IntToString(a), IntToString(b);
    if ImageFileName(stem, a) == ImageFileName(stem, b) {
      assert ImageFileName(stem, a) == stem + "_page_" + x + ".png" == (stem + "_page_") + (x + ".png");
      assert ImageFileName(stem, b) == stem + "_page_" + y + ".png" == (stem + "_page_") + (y + ".png");
      PrefixCancel(stem + "_page_", x + ".png", y + ".png");
      SuffixCancel(x, y, ".png");
      IntToStringInjective(a, b);
    }
  }

  /** Two pages of one PDF get the same image path only if they are the same page. */
  lemma ImagePathsDistinct(imageDir: string, pdfPath: string, a: int, b: int)
    ensures ImagePath(imageDir, pdfPath, a) == ImagePath(imageDir, pdfPath, b) <==> a == b
  {
    var stem := Stem(pdfPath);
    JoinInjective(imageDir, ImageFileName(stem, a), ImageFileName(stem, b));
    ImageFileNameInjective(stem, a, b);
  }

  /** `zip(texts, images)`: pairs by position, as many as the shorter list has. */
  function Pair(texts: seq<PageText>, images: seq<PageImage>): (pairs: seq<(PageText, PageImage)>)
    ensures |pairs| == Min(|texts|, |images|)
    ensures forall k :: 0 <= k < |pairs| ==> pairs[k] == (texts[k], images[k])
  {
    seq(Min(|texts|, |images|), k requires 0 <= k < Min(|texts|, |images|) => (texts[k], images[k]))
  }

  predicate Matches(p: (PageText, PageImage)) {
    p.0.pageNum == p.1.pageNum
  }

  /** The record kept for a matching pair: number and text from the text entry, path from the image entry. */
  function Merge(p: (PageText, PageImage)): (page: Page)
    ensures page.pageNum == p.0.pageNum && page.text == p.0.text && page.imagePath == p.1.imagePath
  {
    Page(p.0.pageNum, p.0.text, p.1.imagePath)
  }

  /** `page` is the record of some matching pair. */
  predicate KeptFrom(pairs: seq<(PageText, PageImage)>, page: Page) {
    exists k :: 0 <= k < |pairs| && Matches(pairs[k]) && page == Merge(pairs[k])
  }

  /** The records of the matching pairs, in pair order. */
  function KeepMatching(pairs: seq<(PageText, PageImage)>): (pages: seq<Page>)
    ensures |pages| <= |pairs|
    ensures forall i :: 0 <= i < |pages| ==> KeptFrom(pairs, pages[i])
    decreases |pairs|
  {
    if pairs == [] then []
    else
      var last := pairs[|pairs| - 1];
      KeepMatching(pairs[..|pairs| - 1]) + (if Matches(last) then [Merge(last)] else [])
  }

  /** The positions of the matching pairs, ascending. */
  function MatchPositions(pairs: seq<(PageText, PageImage)>): seq<nat>
    decreases |pairs|
  {
    if pairs == [] then []
    else
      MatchPositions(pairs[..|pairs| - 1]) + (if Matches(pairs[|pairs| - 1]) then [|pairs| - 1] else [])
  }

  lemma {:induction false} MatchPositionsValid(pairs: seq<(PageText, PageImage)>)
    ensures |KeepMatching(pairs)| == |MatchPositions(pairs)| <= |pairs|
    ensures forall i :: 0 <= i < |MatchPositions(pairs)| ==>
      MatchPositions(pairs)[i] < |pairs| && Matches(pairs[MatchPositions(pairs)[i]])
    decreases |pairs|
  {
    if pairs != [] {
      var init := pairs[..|pairs| - 1];
      MatchPositionsValid(init);
      var mp := MatchPositions(init);
      forall i | 0 <= i < |mp| ensures pairs[mp[i]] == init[mp[i]] { }
    }
  }

  lemma {:induction false} MatchPositionsAscend(pairs: seq<(PageText, PageImage)>)
    ensures forall i, j :: 0 <= i < j < |MatchPositions(pairs)| ==>
      MatchPositions(pairs)[i] < MatchPositions(pairs)[j]
    decreases |pairs|
  {
    if pairs != [] {
      var init := pairs[..|pairs| - 1];
      MatchPositionsAscend(init);
      MatchPositionsValid(init);
    }
  }

  lemma {:induction false} MatchPositionsComplete(pairs: seq<(PageText, PageImage)>)
    ensures forall k :: 0 <= k < |pairs| && Matches(pairs[k]) ==> k in MatchPositions(pairs)
    decreases |pairs|
  {
    if pairs != [] {
      var init := pairs[..|pairs| - 1];
      MatchPositionsComplete(init);
      forall k | 0 <= k < |init| ensures init[k] == pairs[k] { }
    }
  }

  lemma {:induction false} KeepMatchingMerges(pairs: seq<(PageText, PageImage)>)
    ensures |KeepMatching(pairs)| == |MatchPositions(pairs)|
    ensures forall i :: 0 <= i < |MatchPositions(pairs)| ==>
      MatchPositions(pairs)[i] < |pairs| && KeepMatching(pairs)[i] == Merge(pairs[MatchPositions(pairs)[i]])
    decreases |pairs|
  {
    MatchPositionsValid(pairs);
    if pairs != [] {
      var init := pairs[..|pairs| - 1];
      KeepMatchingMerges(init);
      MatchPositionsValid(init);
      var mp := MatchPositions(init);
      forall i | 0 <= i < |mp| ensures pairs[mp[i]] == init[mp[i]] { }
    }
  }

  /**
   * What the combination keeps: record i is the merge of the pair at the
   * i-th matching position; those positions ascend (the output is a
   * subsequence of the zipped order); and every matching pair is among
   * them, so a pair is dropped exactly when its page numbers differ.
   */
  lemma KeepMatchingCharacterised(pairs: seq<(PageText, PageImage)>)
    ensures |KeepMatching(pairs)| == |MatchPositions(pairs)| <= |pairs|
    ensures forall i :: 0 <= i < |MatchPositions(pairs)| ==>
      MatchPositions(pairs)[i] < |pairs| && Matches(pairs[MatchPositions(pairs)[i]]) &&
      KeepMatching(pairs)[i] == Merge(pairs[MatchPositions(pairs)[i]])
    ensures forall i, j :: 0 <= i < j < |MatchPositions(pairs)| ==>
      MatchPositions(pairs)[i] < MatchPositions(pairs)[j]
    ensures forall k :: 0 <= k < |pairs| && Matches(pairs[k]) ==> k in MatchPositions(pairs)
  {
    MatchPositionsValid(pairs);
    MatchPositionsAscend(pairs);
    MatchPositionsComplete(pairs);
    KeepMatchingMerges(pairs);
  }

  /** When every pair matches, nothing is dropped. */
  lemma {:induction false} AllMatchingKeepsAll(pairs: seq<(PageText, PageImage)>)
    requires forall k :: 0 <= k < |pairs| ==> Matches(pairs[k])
    ensures |KeepMatching(pairs)| == |pairs|
    ensures forall k :: 0 <= k < |pairs| ==> KeepMatching(pairs)[k] == Merge(pairs[k])
    decreases |pairs|
  {
    if pairs != [] {
      var init := pairs[..|pairs| - 1];
      AllMatchingKeepsAll(init);
      var pages := KeepMatching(pairs);
      assert pages == KeepMatching(init) + [Merge(pairs[|pairs| - 1])];
      forall k | 0 <= k < |pairs| ensures pages[k] == Merge(pairs[k]) {
        if k < |init| {
          assert init[k] == pairs[k];
        }
      }
    }
  }

  class PdfProcessor {
    const pdfDir: string
    const imageDir: string
    const tempDir: string

    constructor (pdfDir: string := "pdfs", imageDir: string := "images", tempDir: string := "temp")
      ensures this.pdfDir == pdfDir && this.imageDir == imageDir && this.tempDir == tempDir
    {
      this.pdfDir := pdfDir;
      this.imageDir := imageDir;
      this.tempDir := tempDir;
    }

    /** One entry per page, in document order, numbered from 1. */
    method ExtractTextFromPdf(pdf: PdfDocument) returns (pageTexts: seq<PageText>)
      ensures |pageTexts| == |pdf.pageTexts|
      ensures forall k :: 0 <= k < |pageTexts| ==> pageTexts[k] == PageText(k + 1, pdf.pageTexts[k])
    {
      pageTexts := [];
      var pageNum := 0;
      while pageNum < |pdf.pageTexts|
        invariant 0 <= pageNum <= |pdf.pageTexts|
        invariant |pageTexts| == pageNum
        invariant forall k :: 0 <= k < pageNum ==> pageTexts[k] == PageText(k + 1, pdf.pageTexts[k])
      {
        var text := pdf.pageTexts[pageNum];
        pageTexts := pageTexts + [PageText(pageNum + 1, text)];
        pageNum := pageNum + 1;
      }
    }

    /** One entry per rendered image, numbered from 1, each stored under a name derived from the PDF's stem. */
    method ConvertPdfToImages(pdfPath: string, pdf: PdfDocument) returns (imagePaths: seq<PageImage>)
      ensures |imagePaths| == pdf.imageCount
      ensures forall i :: 0 <= i < |imagePaths| ==>
        imagePaths[i] == PageImage(i + 1, ImagePath(imageDir, pdfPath, i + 1))
    {
      var pdfId := Stem(pdfPath);
      imagePaths := [];
      var i := 0;
      while i < pdf.imageCount
        invariant 0 <= i <= pdf.imageCount
        invariant |imagePaths| == i
        invariant forall k :: 0 <= k < i ==> imagePaths[k] == PageImage(k + 1, ImagePath(imageDir, pdfPath, k + 1))
      {
        var imageFilename := ImageFileName(pdfId, i + 1);
        var imagePath := Join(imageDir, imageFilename);
        imagePaths := imagePaths + [PageImage(i + 1, imagePath)];
        i := i + 1;
      }
    }

    /** The combining loop of `process_pdf`: zip by position, skip pairs whose page numbers differ. */
    method ZipPages(pageTexts: seq<PageText>, pageImages: seq<PageImage>) returns (pages: seq<Page>)
      ensures pages == KeepMatching(Pair(pageTexts, pageImages))
    {
      ghost var pairs := Pair(pageTexts, pageImages);
      pages := [];
      var k := 0;
      while k < Min(|pageTexts|, |pageImages|)
        invariant 0 <= k <= |pairs|
        invariant pages == KeepMatching(pairs[..k])
      {
        var textInfo, imageInfo := pageTexts[k], pageImages[k];
        assert pairs[..k + 1][..k] == pairs[..k];
        k := k + 1;
        if textInfo.pageNum != imageInfo.pageNum {
          continue;
        }
        pages := pages + [Page(textInfo.pageNum, textInfo.text, imageInfo.imagePath)];
      }
      assert pairs[..k] == pairs;
    }

    /**
     * The page records of one PDF: one per page that both passes saw, i.e.
     * as many as the shorter pass produced, record k holding page number
     * k + 1, that page's extracted text (empty text included) and its image.
     */
    method ProcessPdf(pdfPath: string, pdf: PdfDocument) returns (pages: seq<Page>)
      ensures |pages| == Min(|pdf.pageTexts|, pdf.imageCount)
      ensures forall k :: 0 <= k < |pages| ==>
        pages[k] == Page(k + 1, pdf.pageTexts[k], ImagePath(imageDir, pdfPath, k + 1))
    {
      var pageTexts := ExtractTextFromPdf(pdf);
      var pageImages := ConvertPdfToImages(pdfPath, pdf);
      pages := ZipPages(pageTexts, pageImages);
      ghost var pairs := Pair(pageTexts, pageImages);
      forall k | 0 <= k < |pairs| ensures Matches(pairs[k]) {
        assert pairs[k] == (pageTexts[k], pageImages[k]);
      }
      AllMatchingKeepsAll(pairs);
      forall k | 0 <= k < |pages|
        ensures pages[k] == Page(k + 1, pdf.pageTexts[k], ImagePath(imageDir, pdfPath, k + 1))
      {
        assert pages[k] == Merge(pairs[k]);
        assert pairs[k] == (pageTexts[k], pageImages[k]);
      }
    }
  }
}
