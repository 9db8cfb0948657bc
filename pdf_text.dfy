/**
 * extract_pdf_text of the documents app: the texts of a PDF's pages
 * appended in page order with no separator; a page without text adds
 * nothing (the notice printed for it is output only).
 */
module PdfText {
  import opened Wrappers
  import opened Text

  /** `if page_text: text += page_text`. */
  function PageContribution(page: Option<string>): (s: string)
    ensures page.None? ==> s == ""
    ensures page.Some? ==> s == page.value
  {
    if page.Some? && page.value != "" then page.value else ""
  }

  /** The accumulated text after the given pages. */
  function ConcatPages(pages: seq<Option<string>>): string {
    if pages == [] then "" else ConcatPages(pages[..|pages| - 1]) + PageContribution(pages[|pages| - 1])
  }

  /** Each page's text, "" for a page without one. */
  function PageTexts(pages: seq<Option<string>>): seq<string> {
    seq(|pages|, k requires 0 <= k < |pages| => pages[k].GetOr(""))
  }

  method ExtractPdfText(pages: seq<Option<string>>) returns (text: string)
    ensures text == ConcatPages(pages)
  {
    text := "";
    for i := 0 to |pages|
      invariant text == ConcatPages(pages[..i])
    {
      assert pages[..i + 1][..i] == pages[..i];
      var pageText := pages[i];
      if pageText.Some? && pageText.value != "" {
        text := text + pageText.value;
      }
    }
    assert pages[..|pages|] == pages;
  }

  /** Pages come out in order: the text of two page runs is the concatenation of theirs. */
  lemma {:induction false} ConcatAppend(a: seq<Option<string>>, b: seq<Option<string>>)
    ensures ConcatPages(a + b) == ConcatPages(a) + ConcatPages(b)
    decreases |b|
  {
    if b == [] {
      assert a + b == a;
    } else {
      ConcatAppend(a, b[..|b| - 1]);
      ConcatAppendStep(a, b);
    }
  }

  /** The step of ConcatAppend: the last page of b is the last page of a + b. */
  lemma {:induction false} ConcatAppendStep(a: seq<Option<string>>, b: seq<Option<string>>)
    requires b != []
    requires ConcatPages(a + b[..|b| - 1]) == ConcatPages(a) + ConcatPages(b[..|b| - 1])
    ensures ConcatPages(a + b) == ConcatPages(a) + ConcatPages(b)
  {
    var ab, init, x := a + b, b[..|b| - 1], b[|b| - 1];
    assert ab[..|ab| - 1] == a + init && ab[|ab| - 1] == x;
    assert ConcatPages(ab) == ConcatPages(a + init) + PageContribution(x);
    assert ConcatPages(b) == ConcatPages(init) + PageContribution(x);
    var pa, pi, px := ConcatPages(a), ConcatPages(init), PageContribution(x);
    AppendAssoc(pa, pi, px);
  }

  /** A page with no text, or with empty text, leaves the result as it is. */
  lemma BlankPageAddsNothing(pages: seq<Option<string>>, page: Option<string>)
    requires page.None? || page.value == ""
    ensures ConcatPages(pages + [page]) == ConcatPages(pages)
  {
    assert (pages + [page])[..|pages|] == pages;
  }

  /** A document with no pages gives the empty text. */
  lemma NoPagesNoText()
    ensures ConcatPages([]) == ""
  {
  }

  lemma {:induction false} TotalLengthSnoc(parts: seq<string>, p: string)
    ensures TotalLength(parts + [p]) == TotalLength(parts) + |p|
  {
    if parts != [] {
      assert (parts + [p])[1..] == parts[1..] + [p];
      TotalLengthSnoc(parts[1..], p);
    }
  }

  /** The length of the result is the sum of the lengths of the pages' texts. */
  lemma {:induction false} ConcatLength(pages: seq<Option<string>>)
    ensures |ConcatPages(pages)| == TotalLength(PageTexts(pages))
  {
    if pages != [] {
      var init := pages[..|pages| - 1];
      ConcatLength(init);
      assert PageTexts(pages) == PageTexts(init) + [pages[|pages| - 1].GetOr("")];
      TotalLengthSnoc(PageTexts(init), pages[|pages| - 1].GetOr(""));
    }
  }

  /** The accumulated text is the page texts joined with no separator: "".join(texts). */
  lemma {:induction false} ConcatIsJoin(pages: seq<Option<string>>)
    ensures ConcatPages(pages) == Join("", PageTexts(pages))
  {
    if pages != [] {
      var init, last := pages[..|pages| - 1], pages[|pages| - 1];
      ConcatIsJoin(init);
      PageTextsSnoc(pages);
      assert PageContribution(last) == last.GetOr("");
      if init != [] {
        JoinAppend("", PageTexts(init), [last.GetOr("")]);
      } else {
        assert PageTexts(pages) == [] + [last.GetOr("")];
      }
    }
  }

  lemma PageTextsSnoc(pages: seq<Option<string>>)
    requires pages != []
    ensures PageTexts(pages) == PageTexts(pages[..|pages| - 1]) + [pages[|pages| - 1].GetOr("")]
  {
    var init := pages[..|pages| - 1];
    assert forall k :: 0 <= k < |init| ==> PageTexts(pages)[k] == PageTexts(init)[k];
  }
}
