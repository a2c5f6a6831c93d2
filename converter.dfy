/** `extract_text_with_layout` and `convert`: the whole conversion of one PDF
    into the Markdown text that is written to the output file. */
module Converter {
  import opened Outcomes
  import opened TableFormat
  import opened PageAssembly
  import opened Images

  /** A page as the PDF parser hands it out: what `page.extract_text()` and
      `page.extract_tables()` return, None where the call raises. */
  datatype RawPage = RawPage(text: Option<string>, grids: Option<seq<Grid>>)

  /** The entry `extract_text_with_layout` builds for a page whose text is `text`. */
  function Entry(text: string, page: RawPage): PageContent
  {
    PageContent(text, Some(PageTables(page.grids)))
  }

  /** The page list for the pages of an open document; the first page whose
      text extraction raises aborts it. */
  function Layout(pages: seq<RawPage>): Result<seq<PageContent>>
    decreases |pages|
  {
    if pages == [] then Ok([])
    else
      var last := pages[|pages| - 1];
      match (Layout(pages[..|pages| - 1]), last.text)
      case (Err(e), _) => Err(e)
      case (_, None) => Err(TextExtractionFailed)
      case (Ok(done), Some(text)) => Ok(done + [Entry(text, last)])
  }

  /** What `extract_text_with_layout` returns, given the document's pages
      (None when `pdfplumber.open` raised); every exception is re-raised. */
  function TextWithLayout(document: Option<seq<RawPage>>): Result<seq<PageContent>>
  {
    match document
    case None => Err(DocumentUnreadable)
    case Some(pages) => Layout(pages)
  }

  /** Every page yields its text, so the document yields its page list. */
  predicate AllTextsExtracted(pages: seq<RawPage>)
  {
    forall i :: 0 <= i < |pages| ==> pages[i].text.Some?
  }

  /** The page list succeeds exactly when every page's text could be extracted,
      and then it holds one entry per page, in page order, each with its own
      tables present. */
  lemma {:induction false} LayoutSpec(pages: seq<RawPage>)
    ensures Layout(pages).Ok? <==> AllTextsExtracted(pages)
    ensures Layout(pages).Err? ==> Layout(pages).error == TextExtractionFailed
    ensures Layout(pages).Ok? ==>
              |Layout(pages).value| == |pages| &&
              forall i :: 0 <= i < |pages| ==>
                Layout(pages).value[i] == Entry(pages[i].text.value, pages[i]) &&
                Layout(pages).value[i].tables.Some?
    decreases |pages|
  {
    if pages != [] {
      var init := pages[..|pages| - 1];
      LayoutSpec(init);
      assert forall i :: 0 <= i < |init| ==> init[i] == pages[i];
    }
  }

  /** `extract_text_with_layout`: reads each page's text and tables into the page list. */
  method ExtractTextWithLayout(document: Option<seq<RawPage>>) returns (r: Result<seq<PageContent>>)
    ensures r == TextWithLayout(document)
  {
    if document.None? {
      return Err(DocumentUnreadable);
    }
    var pages := document.value;
    var pageContents := [];
    for i := 0 to |pages|
      invariant Layout(pages[..i]) == Ok(pageContents)
    {
      var page := pages[i];
      assert pages[..i + 1][..i] == pages[..i];
      if page.text.None? {
        LayoutSpec(pages);
        return Err(TextExtractionFailed);
      }
      var tables := ExtractTables(page.grids);
      pageContents := pageContents + [PageContent(page.text.value, Some(tables))];
    }
    assert pages[..|pages|] == pages;
    return Ok(pageContents);
  }

  /** What `convert` writes to the output file, or the exception it raises:
      the page Markdown, then one OCR section per rendered page. */
  function Conversion(document: Option<seq<RawPage>>, rendered: Option<seq<PageImage>>): Result<string>
  {
    match TextWithLayout(document)
    case Err(e) => Err(e)
    case Ok(pageContents) =>
      match ImageFiles(rendered)
      case Err(e) => Err(e)
      case Ok(images) => Ok(DocumentMarkdown(pageContents) + OcrSections(images))
  }

  /** `convert`: extracts the pages, assembles their Markdown, extracts the
      page images and appends the OCR section of each. */
  method Convert(document: Option<seq<RawPage>>, rendered: Option<seq<PageImage>>) returns (r: Result<string>)
    ensures r == Conversion(document, rendered)
  {
    var pageContents := ExtractTextWithLayout(document);
    if pageContents.Err? {
      return Err(pageContents.error);
    }
    var markdownText := ConvertToMarkdown(pageContents.value);
    var images := ExtractImages(rendered);
    if images.Err? {
      return Err(images.error);
    }
    markdownText := AppendOcrSections(markdownText, images.value);
    return Ok(markdownText);
  }

  /** Which of the modelled failures ends the conversion: the document, then a
      page's text, then the rendering of the pages. */
  lemma {:induction false} ConversionFailures(document: Option<seq<RawPage>>, rendered: Option<seq<PageImage>>)
    ensures document.None? ==> Conversion(document, rendered) == Err(DocumentUnreadable)
    ensures (document.Some? && !AllTextsExtracted(document.value)) ==>
              Conversion(document, rendered) == Err(TextExtractionFailed)
    ensures (document.Some? && AllTextsExtracted(document.value) && rendered.None?) ==>
              Conversion(document, rendered) == Err(RasterisationFailed)
    ensures Conversion(document, rendered).Ok? <==>
              document.Some? && AllTextsExtracted(document.value) && rendered.Some?
  {
    if document.Some? {
      LayoutSpec(document.value);
    }
  }

  /** A successful conversion is the page Markdown followed by the OCR sections. */
  lemma {:induction false} ConversionParts(document: Option<seq<RawPage>>, rendered: Option<seq<PageImage>>)
    requires Conversion(document, rendered).Ok?
    ensures TextWithLayout(document).Ok? && rendered.Some? && ImageFiles(rendered).Ok?
    ensures Conversion(document, rendered).value
            == DocumentMarkdown(TextWithLayout(document).value) + OcrSections(ImageFiles(rendered).value)
  {
  }

  /** OCR sections: the page Markdown is a prefix of the output, and after it
      comes, for each rendered page i in order, the section headed with the
      image name `page_{i+1}_image.png` and holding that image's OCR text. */
  lemma {:induction false} ConversionLayout(document: Option<seq<RawPage>>, rendered: Option<seq<PageImage>>, i: nat)
    requires Conversion(document, rendered).Ok?
    ensures TextWithLayout(document).Ok? && rendered.Some?
    ensures DocumentMarkdown(TextWithLayout(document).value) <= Conversion(document, rendered).value
    ensures i < |rendered.value| ==>
              var files := ImageFiles(rendered).value;
              Conversion(document, rendered).value
              == DocumentMarkdown(TextWithLayout(document).value)
                 + (OcrSections(files[..i])
                    + OcrSection(ImageName(i), rendered.value[i].ocr.GetOr(""))
                    + OcrSections(files[i + 1..]))
  {
    ConversionParts(document, rendered);
    var out := Conversion(document, rendered).value;
    var files := ImageFiles(rendered).value;
    var md := DocumentMarkdown(TextWithLayout(document).value);
    assert (md + OcrSections(files))[..|md|] == md;
    if i < |rendered.value| {
      assert files[i] == ImageFile(ImageName(i), rendered.value[i]);
      SectionInPlace(files, i);
      var b, c, d := OcrSections(files[..i]), OcrSection(ImageName(i), rendered.value[i].ocr.GetOr("")),
                     OcrSections(files[i + 1..]);
      assert OcrSections(files) == b + c + d;
    }
  }

  /** Without page images, the output is exactly the page Markdown. */
  lemma {:induction false} NoImagesNoSections(document: Option<seq<RawPage>>)
    requires TextWithLayout(document).Ok?
    ensures Conversion(document, Some([])) == Ok(DocumentMarkdown(TextWithLayout(document).value))
  {
    var none: seq<PageImage> := [];
    assert |ImageFiles(Some(none)).value| == 0;
    var md := DocumentMarkdown(TextWithLayout(document).value);
    assert md + "" == md;
  }
}
