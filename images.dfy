/** `extract_images`, `perform_ocr` and the OCR loop of `convert`: one image
    file per rendered page, named after its 1-based page number, and one
    Markdown section per image with the text OCR found in it. */
module Images {
  import opened Outcomes
  import opened Text

  /** A rendered page image, seen through what OCR makes of it: the text, or
      None when opening the image or running Tesseract raises. */
  datatype PageImage = PageImage(ocr: Option<string>)

  /** A saved image file: its file name (`image.name`) and its picture. */
  datatype ImageFile = ImageFile(name: string, image: PageImage)

  const NamePrefix: string := "page_"
  const NameSuffix: string := "_image.png"

  /** The file name `f"page_{i+1}_image.png"` of the image of rendered page `i` (from 0). */
  function ImageName(i: nat): string
  {
    NamePrefix + Decimal(i + 1) + NameSuffix
  }

  /** The page number an image file name carries, None for a name of another form. */
  function ImageNumber(name: string): Option<nat>
  {
    if |name| >= |NamePrefix| + |NameSuffix|
       && name[..|NamePrefix|] == NamePrefix
       && name[|name| - |NameSuffix|..] == NameSuffix
    then ParseDecimal(name[|NamePrefix|..|name| - |NameSuffix|])
    else None
  }

  /** Image naming: the image of rendered page i carries the 1-based number i + 1. */
  lemma {:induction false} ImageNameNumber(i: nat)
    ensures ImageNumber(ImageName(i)) == Some(i + 1)
  {
    var digits := Decimal(i + 1);
    var name := ImageName(i);
    assert name[..|NamePrefix|] == NamePrefix;
    assert name[|name| - |NameSuffix|..] == NameSuffix;
    assert name[|NamePrefix|..|name| - |NameSuffix|] == digits;
    ParseDecimalRoundTrip(i + 1);
  }

  /** Distinct rendered pages get distinct image file names. */
  lemma {:induction false} ImageNamesDistinct(i: nat, j: nat)
    ensures ImageName(i) == ImageName(j) <==> i == j
  {
    ImageNameNumber(i);
    ImageNameNumber(j);
  }

  /** What `extract_images` returns, given the rendered pages (None when
      `convert_from_path` raised): one file per page, in page order. */
  function ImageFiles(rendered: Option<seq<PageImage>>): Result<seq<ImageFile>>
  {
    match rendered
    case None => Err(RasterisationFailed)
    case Some(images) =>
      Ok(seq(|images|, i requires 0 <= i < |images| => ImageFile(ImageName(i), images[i])))
  }

  /** `extract_images`: names and saves the image of each rendered page in turn. */
  method ExtractImages(rendered: Option<seq<PageImage>>) returns (r: Result<seq<ImageFile>>)
    ensures r == ImageFiles(rendered)
    ensures r.Ok? ==> forall i, j :: 0 <= i < j < |r.value| ==> r.value[i].name != r.value[j].name
  {
    if rendered.None? {
      return Err(RasterisationFailed);
    }
    var images := rendered.value;
    var extracted := [];
    for i := 0 to |images|
      invariant extracted == seq(i, k requires 0 <= k < i => ImageFile(ImageName(k), images[k]))
    {
      extracted := extracted + [ImageFile(ImageName(i), images[i])];
    }
    forall i, j | 0 <= i < j < |extracted|
      ensures extracted[i].name != extracted[j].name
    {
      ImageNamesDistinct(i, j);
    }
    return Ok(extracted);
  }

  /** What `perform_ocr` returns: the recognised text, or "" when OCR raises. */
  function PerformOcr(file: ImageFile): (r: string)
    ensures file.image.ocr.Some? ==> r == file.image.ocr.value
    ensures file.image.ocr.None? ==> r == ""
  {
    file.image.ocr.GetOr("")
  }

  /** The section appended for one image. */
  function OcrSection(name: string, ocrText: string): string
  {
    "\n\n## OCR Text from " + name + "\n" + ocrText + "\n"
  }

  /** All the OCR sections, in image order. */
  function OcrSections(files: seq<ImageFile>): (r: string)
    ensures r == "" <==> files == []
    decreases |files|
  {
    if files == [] then ""
    else OcrSections(files[..|files| - 1]) + OcrSection(files[|files| - 1].name, PerformOcr(files[|files| - 1]))
  }

  /** The OCR loop of `convert`: appends one section per image to the text. */
  method AppendOcrSections(markdown: string, files: seq<ImageFile>) returns (r: string)
    ensures r == markdown + OcrSections(files)
  {
    r := markdown;
    for i := 0 to |files|
      invariant r == markdown + OcrSections(files[..i])
    {
      var ocrText := PerformOcr(files[i]);
      assert files[..i + 1][..i] == files[..i];
      r := r + "\n\n## OCR Text from " + files[i].name + "\n" + ocrText + "\n";
    }
    assert files[..|files|] == files;
  }

  /** The sections of two runs of images are the two runs of sections. */
  lemma {:induction false} OcrSectionsAppend(a: seq<ImageFile>, b: seq<ImageFile>)
    ensures OcrSections(a + b) == OcrSections(a) + OcrSections(b)
    decreases |b|
  {
    if b == [] {
      assert a + b == a;
    } else {
      var b' := b[..|b| - 1];
      assert (a + b)[..|a + b| - 1] == a + b';
      assert (a + b)[|a + b| - 1] == b[|b| - 1];
      OcrSectionsAppend(a, b');
      calc {
        OcrSections(a + b);
        OcrSections(a + b') + OcrSection(b[|b| - 1].name, PerformOcr(b[|b| - 1]));
        OcrSections(a) + (OcrSections(b') + OcrSection(b[|b| - 1].name, PerformOcr(b[|b| - 1])));
      }
    }
  }

  /** Image order: the section for image i stands between the sections of the
      images before it and those after it. */
  lemma {:induction false} SectionInPlace(files: seq<ImageFile>, i: nat)
    requires i < |files|
    ensures OcrSections(files)
            == OcrSections(files[..i]) + OcrSection(files[i].name, PerformOcr(files[i])) + OcrSections(files[i + 1..])
  {
    var before, file, after := files[..i], files[i], files[i + 1..];
    assert files == before + [file] + after;
    OcrSectionsAppend(before + [file], after);
    OcrSectionsAppend(before, [file]);
    assert [file][..0] == [];
    assert OcrSections([file]) == OcrSection(file.name, PerformOcr(file)) by {
      assert OcrSections([file]) == "" + OcrSection(file.name, PerformOcr(file));
    }
  }
}
