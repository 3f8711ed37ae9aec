/** Page text and document text, as `extract_text_from_page` and
    `extract_text_from_pdf` compute them.

    A page is what `page.get_text()` gives for it: `Some(text)`, or `None` when the
    call raises. A document is its list of pages, in order. */
module Extraction {
  import opened Wrappers
  import opened Batching

  type Page = Option<string>

  /** `extract_text_from_page`: the page's text, or "" when get_text raises. */
  function PageText(page: Page): string
  {
    match page
    case Some(text) => text
    case None => ""
  }

  /** The text of each page, in page order. */
  function PageTexts(doc: seq<Page>): (texts: seq<string>)
    ensures |texts| == |doc|
    ensures forall i :: 0 <= i < |doc| ==> texts[i] == PageText(doc[i])
  {
    if |doc| == 0 then [] else PageTexts(doc[..|doc| - 1]) + [PageText(doc[|doc| - 1])]
  }

  /** `"".join(parts)`. */
  function Join(parts: seq<string>): string
  {
    if |parts| == 0 then "" else Join(parts[..|parts| - 1]) + parts[|parts| - 1]
  }

  /** The text `extract_text_from_pdf` returns for a document. */
  function DocumentText(doc: seq<Page>): string
  {
    Join(PageTexts(doc))
  }

  lemma {:induction false} JoinAppend(a: seq<string>, b: seq<string>)
    ensures Join(a + b) == Join(a) + Join(b)
    decreases |b|
  {
    if |b| > 0 {
      assert (a + b)[..|a + b| - 1] == a + b[..|b| - 1];
      JoinAppend(a, b[..|b| - 1]);
    } else {
      assert a + b == a;
    }
  }

  lemma PageTextsAppend(a: seq<Page>, b: seq<Page>)
    ensures PageTexts(a + b) == PageTexts(a) + PageTexts(b)
  {
  }

  /** The text of a document is the text of its first pages followed by the text of
      the rest: pages keep their order. */
  lemma DocumentTextAppend(a: seq<Page>, b: seq<Page>)
    ensures DocumentText(a + b) == DocumentText(a) + DocumentText(b)
  {
    PageTextsAppend(a, b);
    JoinAppend(PageTexts(a), PageTexts(b));
  }

  /** The page texts of a list of page batches, batch after batch: what the
      `text.extend(batch_results)` calls build. */
  function BatchedPageTexts(bs: seq<seq<Page>>): seq<string>
  {
    if |bs| == 0 then [] else PageTexts(bs[0]) + BatchedPageTexts(bs[1..])
  }

  lemma {:induction false} BatchedPageTextsFlatten(bs: seq<seq<Page>>)
    ensures BatchedPageTexts(bs) == PageTexts(Flatten(bs))
  {
    if |bs| > 0 {
      BatchedPageTextsFlatten(bs[1..]);
      PageTextsAppend(bs[0], Flatten(bs[1..]));
    }
  }

  /** Reading the pages in batches `doc[i:i + size]` and joining the batches' texts
      in turn gives the document text: every page is read once, in order. */
  lemma DocumentTextInBatches(doc: seq<Page>, size: nat)
    requires size > 0
    ensures Join(BatchedPageTexts(Batches(doc, size))) == DocumentText(doc)
  {
    BatchesCover(doc, size);
    BatchedPageTextsFlatten(Batches(doc, size));
  }

  /** One page contributes exactly its text. */
  lemma DocumentTextSingle(p: Page)
    ensures DocumentText([p]) == PageText(p)
  {
    assert PageTexts([p]) == [PageText(p)];
    assert Join([PageText(p)]) == Join([]) + PageText(p);
  }

  /** A page whose get_text raises contributes "" and the later pages still count. */
  lemma FailedPageContributesNothing(a: seq<Page>, b: seq<Page>)
    ensures DocumentText(a + [None] + b) == DocumentText(a) + DocumentText(b)
  {
    DocumentTextAppend(a + [None], b);
    DocumentTextAppend(a, [None]);
    DocumentTextSingle(None);
  }
}
