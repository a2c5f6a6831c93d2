# pdf2markdown: a verified model of the Markdown serialiser

`pdf2markdown.py` converts a PDF into Markdown in three steps. It extracts
each page's text and tables with pdfplumber. It renders every page to an image
with pdf2image and saves the image as `page_<n>_image.png`. It runs Tesseract
OCR on each saved image. This project models the part that builds strings from
the extracted data, and proves properties of that model:

- the table formatter `_convert_table_to_markdown` (header line, `---`
  separator line, one line per data row);
- the table list `_extract_tables` (one Markdown table per extracted grid, or
  `[]` when anything raises);
- the page list `extract_text_with_layout`;
- the page assembler `convert_to_markdown`;
- the naming of page images in `extract_images`, the `""` fallback of
  `perform_ocr`, and the OCR loop of `convert`, which appends one
  `## OCR Text from <name>` section per image.

Modules, one per part of the conversion:

- `Outcomes` (outcomes.dfy): `Option`, for a foreign call that may raise, and
  `Result`, for a step that returns a value or raises one of the converter's
  exceptions.
- `Text` (text.dfy): Python's `str.join` and `[s] * n`; `Terminated`, which
  puts a terminator after every part; splitting a text into lines; decimal
  numerals and their parsing.
- `TableFormat` (table.dfy): `_convert_table_to_markdown` and `_extract_tables`.
- `PageAssembly` (assembly.dfy): `convert_to_markdown`.
- `Images` (images.dfy): `extract_images`, `perform_ocr` and the OCR loop.
- `Converter` (converter.dfy): `extract_text_with_layout` and `convert`.

Every loop of the source is a method with a `while` or `for` loop. Each such
method is proved equal to a specification function, and the lemmas state
their properties in terms of that function. The converter class holds no state
that its methods change, only a logger. So its methods are module-level
methods and functions, not a Dafny class.

The foreign collaborators are inputs:

- the pages pdfplumber yields are a `seq<RawPage>`, each holding the outcome
  of `extract_text()` and of `extract_tables()`;
- the images pdf2image renders are a `seq<PageImage>`, each holding the
  outcome of OCR on that image;
- `None` stands for a call that raised.

A table cell is `Present(text)` or `Null`, the Python `None` that
`extract_tables()` may place in a grid, for instance for a position a row does
not fill. A cell that exists but is empty is `Present("")`. In a data row,
`str(None)` gives `"None"`. In the header row, `" | ".join` raises on a `None`
cell. `_extract_tables` catches that exception and returns `[]`.

What the code does with failures and with the page images:

- `extract_text_with_layout` re-raises on the first page whose
  `extract_text()` raises, so the whole extraction fails
  (pdf2markdown.py:58-75).
- `extract_images` renders every page of the document (pdf2markdown.py:150)
  and saves one image per page.
- `convert` appends one `## OCR Text from <name>` section per saved image
  (pdf2markdown.py:228-231).
- `_analyze_layout` returns an empty dictionary (pdf2markdown.py:137).

## Model

| member | source | states |
|---|---|---|
| TableFormat.HeaderStrings | pdf2markdown.py:115-116 | `join` accepts the header exactly when no header cell is None, and then joins the cells' own texts |
| TableFormat.TableMarkdown | pdf2markdown.py:111-123 | the formatter raises exactly when the grid is non-empty and its header row has a None cell; it returns "" exactly for the empty grid |
| TableFormat.ConvertTableToMarkdown | pdf2markdown.py:101-123 | the row-by-row loop returns what the table specification gives, the exception included |
| TableFormat.TableIsItsLines | pdf2markdown.py:115-121 | a formatted table is its header line, its separator line, then each data row's line in row order, every line ended by a newline |
| TableFormat.TableLineStructure | pdf2markdown.py:116-121 | when no cell holds a newline, splitting the output at newlines gives exactly n + 1 lines for n rows: header, separator, data rows in their original order |
| TableFormat.SeparatorShape | pdf2markdown.py:117 | under a header of n > 0 cells the separator line is `\|` followed by n cells ` --- \|`, so it is 6n + 1 characters long |
| TableFormat.RowLineLength | pdf2markdown.py:121 | a data row's line length depends only on that row's own cells, with no padding or truncation to the header's width |
| TableFormat.HeaderOnlyTable | pdf2markdown.py:111-117 | a two-cell header with no data rows gives `\| a \| b \|` then `\| --- \| --- \|`, each ended by a newline |
| TableFormat.HeaderAndRowTable | pdf2markdown.py:114-121 | a two-column header with one data row gives the header line, the separator line and the data line, in that order |
| TableFormat.NoneDataCell | pdf2markdown.py:120-121 | a None cell in a data row is written `None` |
| TableFormat.FormatAllSpec | pdf2markdown.py:89-93 | formatting a list of grids succeeds exactly when every grid formats; it then gives one table per grid, of the same count and in the same order |
| TableFormat.ExtractedTables | pdf2markdown.py:87-99 | `_extract_tables` gives `[]` when extraction raised or some header has a None cell, and otherwise one Markdown table per grid, in order |
| TableFormat.ExtractTables | pdf2markdown.py:77-99 | the appending loop with its catch-all handler returns what the table-list specification gives |
| PageAssembly.PageStartsWithText | pdf2markdown.py:200-204 | a page's block starts with its text and a blank line; with no `tables` entry, or no tables, that is the whole block |
| PageAssembly.DocumentMarkdown | pdf2markdown.py:196-207 | the document is empty exactly when the page list is empty, and each page adds at least its blank line |
| PageAssembly.ConvertToMarkdown | pdf2markdown.py:186-207 | the nested page and table loops return what the document specification gives |
| PageAssembly.DocumentIsBlocks | pdf2markdown.py:196-206 | the document is its blocks, each followed by a blank line: per page in page order, its text and then its tables in order; there is one block per page plus one per table |
| PageAssembly.DocumentAppend | pdf2markdown.py:198-206 | the document of two runs of pages is the two documents one after the other |
| PageAssembly.PageInPlace | pdf2markdown.py:198-206 | page i's block stands after the blocks of the pages before it and before those of the pages after it |
| Text.ParseDecimalRoundTrip | pdf2markdown.py:156 | the decimal numeral of `i+1` written into an image name reads back as that number |
| Images.ImageNameNumber | pdf2markdown.py:154-156 | the image of rendered page i (from 0) carries the 1-based page number i + 1 in its name `page_{i+1}_image.png` |
| Images.ImageNamesDistinct | pdf2markdown.py:154-156 | two rendered pages get the same image name exactly when they are the same page |
| Images.ExtractImages | pdf2markdown.py:149-164 | the naming loop gives one file per rendered page, in page order, with pairwise distinct names; it raises when rendering raises |
| Images.PerformOcr | pdf2markdown.py:176-184 | `perform_ocr` gives the recognised text when OCR succeeds and "" when opening the image or running Tesseract raises |
| Images.OcrSections | pdf2markdown.py:228-231 | there is no OCR section exactly when there is no image |
| Images.AppendOcrSections | pdf2markdown.py:228-231 | the OCR loop appends, after the given text, the specified sections for the images in image order |
| Images.OcrSectionsAppend | pdf2markdown.py:228-231 | the sections of two runs of images are the two runs of sections |
| Images.SectionInPlace | pdf2markdown.py:228-231 | the section of image i stands between the sections of the images before it and those after it |
| Converter.LayoutSpec | pdf2markdown.py:58-75 | the page list succeeds exactly when every page's text extraction succeeds; it then has one entry per page, in order, each with its text and its `_extract_tables` result present |
| Converter.ExtractTextWithLayout | pdf2markdown.py:48-75 | the page loop returns what the page-list specification gives, and re-raises the document-level and page-level failures |
| Converter.Convert | pdf2markdown.py:209-243 | `convert` produces, or raises, what the conversion specification gives |
| Converter.ConversionFailures | pdf2markdown.py:217-243 | of the modelled failures, the conversion fails on an unreadable document, else on a page whose text extraction raised, else on failed rendering; it succeeds exactly when none of these happens |
| Converter.ConversionParts | pdf2markdown.py:219-231 | a successful conversion is the page Markdown followed by the OCR sections of the rendered images |
| Converter.ConversionLayout | pdf2markdown.py:222-231 | the page Markdown is a prefix of the output; after it, for each rendered page i in order, comes a section headed with `page_{i+1}_image.png` that holds the OCR text, or "" when OCR raised |
| Converter.NoImagesNoSections | pdf2markdown.py:222-231 | with no rendered pages the output is exactly the page Markdown |

## Left out

- PDF parsing: `pdfplumber.open`, `page.extract_text` and `page.extract_tables` are foreign library calls. Their results, or the fact that they raised, are inputs.
- Page text that is `None`: older pdfplumber versions return `None` for a page without text, and `None + "\n\n"` would raise in `convert_to_markdown`. Page text is modelled as a string.
- Rendering and image files: `pdf2image.convert_from_path` and `image.save` are foreign calls and file I/O. Each rendered image stands for itself. The directory part of the saved path is not modelled, because only the file name reaches the Markdown.
- OCR: `Image.open`, `pytesseract.image_to_string` and the Tesseract path set in `__init__` are foreign calls. The OCR result of each image is an input.
- Writing the Markdown file in `convert` and its `True` result: I/O. The model returns the text that would be written.
- Logging: `logging.basicConfig` and the logger calls have no effect on the output.
- The command line (`main`, argument count, `sys.exit`): it only forwards to `convert`.
- `markdown2` is imported but never used.
- `_analyze_layout` always returns `{}`, and no one reads the `layout_elements` entry. Page entries carry only text and tables.
- Exceptions: the catch-all handlers appear only as which outcome fails. The exception's message and type are not modelled.
- Converter.ConversionFailures: failures of `image.save` (pdf2markdown.py:157, re-raised at 164 and 243) and of opening or writing the output file (pdf2markdown.py:235-236, re-raised at 243) are not modelled, because saving and writing are file I/O; the model's conversion succeeds where the source would raise on them.
- TableFormat.TableLineStructure: holds only when no cell contains a newline. A pdfplumber cell with a line break (common for multi-line cells) spreads its row over several output lines.
- Python's `str.join` is modelled as a function, not as a loop, because it is a library call.
