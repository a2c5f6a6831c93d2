/** `convert_to_markdown`: the pages' texts and tables, in page order, as one
    Markdown document. */
module PageAssembly {
  import opened Outcomes
  import opened Text

  /** One entry of the page list: the page text and, when the entry has a
      `tables` key, its Markdown tables. */
  datatype PageContent = PageContent(text: string, tables: Option<seq<string>>)

  /** Python's `page.get('tables', [])`. */
  function TablesOf(page: PageContent): seq<string>
  {
    page.tables.GetOr([])
  }

  /** What one page adds to the document: its text, then each of its tables,
      each followed by a blank line. */
  function PageMarkdown(page: PageContent): string
  {
    page.text + "\n\n" + Terminated(TablesOf(page), "\n\n")
  }

  /** A page's block starts with its text and a blank line; a page without
      tables (or without a `tables` entry) contributes nothing else. */
  lemma {:induction false} PageStartsWithText(page: PageContent)
    ensures |PageMarkdown(page)| >= |page.text| + 2
    ensures PageMarkdown(page)[..|page.text| + 2] == page.text + "\n\n"
    ensures TablesOf(page) == [] ==> PageMarkdown(page) == page.text + "\n\n"
  {
    var head := page.text + "\n\n";
    assert (head + Terminated(TablesOf(page), "\n\n"))[..|head|] == head;
  }

  /** What `convert_to_markdown(page_contents)` returns. */
  function DocumentMarkdown(pages: seq<PageContent>): (r: string)
    ensures r == "" <==> pages == []
    ensures |r| >= 2 * |pages|
    decreases |pages|
  {
    if pages == [] then ""
    else DocumentMarkdown(pages[..|pages| - 1]) + PageMarkdown(pages[|pages| - 1])
  }

  /** `convert_to_markdown`: appends each page's text and then each of its
      tables to the document. */
  method ConvertToMarkdown(pages: seq<PageContent>) returns (markdown: string)
    ensures markdown == DocumentMarkdown(pages)
  {
    markdown := "";
    for i := 0 to |pages|
      invariant markdown == DocumentMarkdown(pages[..i])
    {
      var page := pages[i];
      ghost var before := markdown;
      markdown := markdown + page.text + "\n\n";
      var tables := TablesOf(page);
      for j := 0 to |tables|
        invariant markdown == before + page.text + "\n\n" + Terminated(tables[..j], "\n\n")
      {
        assert tables[..j + 1][..j] == tables[..j];
        markdown := markdown + tables[j] + "\n\n";
      }
      assert tables[..|tables|] == tables;
      assert pages[..i + 1][..i] == pages[..i];
    }
    assert pages[..|pages|] == pages;
  }

  /** Every text block of the document in order: per page, its text, then its tables. */
  function Blocks(pages: seq<PageContent>): seq<string>
    decreases |pages|
  {
    if pages == [] then []
    else Blocks(pages[..|pages| - 1]) + [pages[|pages| - 1].text] + TablesOf(pages[|pages| - 1])
  }

  /** The number of tables on all the pages. */
  function TableCount(pages: seq<PageContent>): nat
    decreases |pages|
  {
    if pages == [] then 0 else TableCount(pages[..|pages| - 1]) + |TablesOf(pages[|pages| - 1])|
  }

  /** Page assembly: the document is its blocks, page texts and tables in page
      order, each followed by a blank line; there is one block per page and
      one per table. */
  lemma {:induction false} DocumentIsBlocks(pages: seq<PageContent>)
    ensures DocumentMarkdown(pages) == Terminated(Blocks(pages), "\n\n")
    ensures |Blocks(pages)| == |pages| + TableCount(pages)
    decreases |pages|
  {
    if pages != [] {
      var init := pages[..|pages| - 1];
      var page := pages[|pages| - 1];
      DocumentIsBlocks(init);
      var before := Blocks(init);
      TerminatedAppend(before + [page.text], TablesOf(page), "\n\n");
      TerminatedAppend(before, [page.text], "\n\n");
      TerminatedCons(page.text, [], "\n\n");
      assert [page.text] + [] == [page.text];
      var t := Terminated(TablesOf(page), "\n\n");
      calc {
        Terminated(Blocks(pages), "\n\n");
        Terminated(before + [page.text], "\n\n") + t;
        Terminated(before, "\n\n") + (page.text + "\n\n" + "") + t;
        DocumentMarkdown(init) + PageMarkdown(page);
      }
    }
  }

  /** Assembling two runs of pages one after the other gives the two documents
      one after the other. */
  lemma {:induction false} DocumentAppend(a: seq<PageContent>, b: seq<PageContent>)
    ensures DocumentMarkdown(a + b) == DocumentMarkdown(a) + DocumentMarkdown(b)
    decreases |b|
  {
    if b == [] {
      assert a + b == a;
    } else {
      var b' := b[..|b| - 1];
      assert (a + b)[..|a + b| - 1] == a + b';
      assert (a + b)[|a + b| - 1] == b[|b| - 1];
      DocumentAppend(a, b');
      calc {
        DocumentMarkdown(a + b);
        DocumentMarkdown(a + b') + PageMarkdown(b[|b| - 1]);
        DocumentMarkdown(a) + (DocumentMarkdown(b') + PageMarkdown(b[|b| - 1]));
      }
    }
  }

  /** Page order: page i's block stands between the pages before it and the pages after it. */
  lemma {:induction false} PageInPlace(pages: seq<PageContent>, i: nat)
    requires i < |pages|
    ensures DocumentMarkdown(pages)
            == DocumentMarkdown(pages[..i]) + PageMarkdown(pages[i]) + DocumentMarkdown(pages[i + 1..])
  {
    var before, page, after := pages[..i], pages[i], pages[i + 1..];
    assert pages == before + [page] + after;
    DocumentAppend(before + [page], after);
    DocumentAppend(before, [page]);
    assert [page][..0] == [];
    assert DocumentMarkdown([page]) == PageMarkdown(page) by {
      assert DocumentMarkdown([page]) == "" + PageMarkdown(page);
    }
  }
}
