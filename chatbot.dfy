/**
 * The contract chatbot: a question about the user's stored contract is
 * answered with the contract paragraph that scores highest against it.
 * The sentence-embedding similarity is an input function `score`.
 */
module Chatbot {
  import opened Wrappers
  import opened Text
  import opened JsonData
  import opened Models
  import opened Segmenter
  import PdfText

  datatype ChatResponse =
    | Answer(paragraph: string)  // 200 {"answer": …}
    | NoQuestion                 // 400 "Keine Frage gestellt."
    | NoContract                 // 404 "Kein Vertrag gefunden."
    | ChatServerError            // an uncaught exception: 500

  /** ChatbotContractView.extract_text: the page texts joined by line feeds; None if the file cannot be read. */
  function ExtractText(pdf: PdfFile): Option<string> {
    match pdf
    case Unreadable => None
    case Pages(ps) => Some(Join("\n", PdfText.PageTexts(ps)))
  }

  /** np.argmax: the first index holding the maximum. */
  function FirstArgMax(scores: seq<real>): (i: nat)
    requires |scores| > 0
    ensures i < |scores|
    ensures forall k :: 0 <= k < |scores| ==> scores[k] <= scores[i]
    ensures forall k :: 0 <= k < i ==> scores[k] < scores[i]
  {
    if |scores| == 1 then 0
    else
      var j := FirstArgMax(scores[..|scores| - 1]);
      if scores[|scores| - 1] > scores[j] then |scores| - 1 else j
  }

  /** request.data.get("question", "").strip(): None when the value is not a string and strip() raises. */
  function Question(data: map<string, Json>): (r: Option<string>)
    ensures "question" !in data ==> r == Some("")
    ensures "question" in data && data["question"].JStr? ==> r == Some(Strip(data["question"].s))
    ensures r.None? <==> "question" in data && !data["question"].JStr?
    ensures r.Some? ==> NoOuterSpace(r.value)
    ensures r == Some("") <==> "question" !in data || (data["question"].JStr? && AllSpace(data["question"].s))
  {
    var q := GetOr(data, "question", JStr(""));
    if q.JStr? then Some(Strip(q.s)) else None
  }

  /** The contract text: the stored text_content unless it is empty, else the text extracted from the PDF. */
  function ContractText(c: UserContract): Option<string> {
    if c.textContent != "" then Some(c.textContent) else ExtractText(c.pdfFile)
  }

  /** The paragraph the view answers with: the first best-scoring one; None when there are no paragraphs. */
  function BestParagraph(question: string, text: string, score: (string, string) -> real): (r: Option<string>)
    ensures r.None? <==> Paragraphs(text) == []
    ensures r.Some? ==> exists i :: (
      && 0 <= i < |Paragraphs(text)| && r.value == Paragraphs(text)[i]
      && (forall k :: 0 <= k < |Paragraphs(text)| ==> score(question, Paragraphs(text)[k]) <= score(question, r.value))
      && (forall k :: 0 <= k < i ==> score(question, Paragraphs(text)[k]) < score(question, r.value)))
  {
    var ps := Paragraphs(text);
    if ps == [] then None
    else
      var scores := seq(|ps|, k requires 0 <= k < |ps| => score(question, ps[k]));
      var i := FirstArgMax(scores);
      assert forall k :: 0 <= k < |ps| ==> scores[k] == score(question, ps[k]);
      assert scores[i] == score(question, ps[i]);
      Some(ps[i])
  }

  /**
   * ChatbotContractView.post for the authenticated user `user`. An empty
   * paragraph list is not guarded in the view: encoding and comparing no
   * paragraphs raises, which is a 500.
   */
  function Post(body: Json, user: UserId, contracts: map<UserId, UserContract>, score: (string, string) -> real): ChatResponse {
    if !body.JObj? then ChatServerError
    else
      var q := Question(body.fields);
      if q.None? then ChatServerError
      else if q.value == "" then NoQuestion
      else if user !in contracts then NoContract
      else
        var text := ContractText(contracts[user]);
        if text.None? then ChatServerError
        else
          var best := BestParagraph(q.value, text.value, score);
          if best.None? then ChatServerError else Answer(best.value)
  }

  // -----------------------------------------------------------------------
  // Properties

  /** A blank or missing question is refused before the contract is looked up. */
  lemma BlankQuestionFirst(data: map<string, Json>, user: UserId, contracts: map<UserId, UserContract>, score: (string, string) -> real)
    requires "question" !in data || (data["question"].JStr? && AllSpace(data["question"].s))
    ensures Post(JObj(data), user, contracts, score) == NoQuestion
  {
  }

  /** With a real question, a user without a contract gets 404. */
  lemma MissingContract(data: map<string, Json>, user: UserId, contracts: map<UserId, UserContract>, score: (string, string) -> real)
    requires "question" in data && data["question"].JStr? && !AllSpace(data["question"].s)
    requires user !in contracts
    ensures Post(JObj(data), user, contracts, score) == NoContract
  {
  }

  /** A stored text is used as it is: the PDF is not read, so even an unreadable file does not matter. */
  lemma StoredTextUsed(body: Json, user: UserId, contracts: map<UserId, UserContract>, score: (string, string) -> real)
    requires user in contracts && contracts[user].textContent != ""
    ensures Post(body, user, contracts, score) ==
      Post(body, user, contracts[user := contracts[user].(pdfFile := Unreadable)], score)
  {
  }

  /**
   * An answer is one of the contract's paragraphs, normalized, scoring
   * highest for the question, and the first paragraph to do so.
   */
  lemma AnswerIsParagraph(body: Json, user: UserId, contracts: map<UserId, UserContract>, score: (string, string) -> real)
    requires Post(body, user, contracts, score).Answer?
    ensures var text := ContractText(contracts[user]).value;
      var q := Question(body.fields).value;
      var answer := Post(body, user, contracts, score).paragraph;
      exists i :: (
        && 0 <= i < |Paragraphs(text)| && answer == Paragraphs(text)[i]
        && (forall k :: 0 <= k < |Paragraphs(text)| ==> score(q, Paragraphs(text)[k]) <= score(q, answer))
        && (forall k :: 0 <= k < i ==> score(q, Paragraphs(text)[k]) < score(q, answer)))
    ensures Normalized(Post(body, user, contracts, score).paragraph)
  {
    var text := ContractText(contracts[user]).value;
    ParagraphsAreParagraphs(text);
  }

  /**
   * The view answers whenever it can: a non-blank string question, a
   * contract, and a readable text that is not blank give 200.
   */
  lemma AnswersRealQuestion(data: map<string, Json>, user: UserId, contracts: map<UserId, UserContract>, score: (string, string) -> real)
    requires "question" in data && data["question"].JStr? && !AllSpace(data["question"].s)
    requires user in contracts && ContractText(contracts[user]).Some?
    requires !AllSpace(ContractText(contracts[user]).value)
    ensures Post(JObj(data), user, contracts, score).Answer?
  {
    BlankTextNoParagraphs(ContractText(contracts[user]).value);
  }

  /** A contract whose text is blank has no paragraphs, which the view does not survive. */
  lemma BlankContractFails(data: map<string, Json>, user: UserId, contracts: map<UserId, UserContract>, score: (string, string) -> real)
    requires "question" in data && data["question"].JStr? && !AllSpace(data["question"].s)
    requires user in contracts && contracts[user].textContent != "" && AllSpace(contracts[user].textContent)
    ensures Post(JObj(data), user, contracts, score) == ChatServerError
  {
    BlankTextNoParagraphs(contracts[user].textContent);
  }

  /** n pages give n - 1 line feeds besides the page texts themselves. */
  lemma ExtractTextLength(pages: seq<Option<string>>)
    requires pages != []
    ensures |ExtractText(Pages(pages)).value| == TotalLength(PdfText.PageTexts(pages)) + |pages| - 1
  {
    JoinLength("\n", PdfText.PageTexts(pages));
  }

  /**
   * The two extraction routines join the same page texts, this one with a
   * line feed between pages, extract_pdf_text with nothing; so they differ
   * by exactly the n - 1 separators.
   */
  lemma ExtractionsDiffer(pages: seq<Option<string>>)
    requires pages != []
    ensures ExtractText(Pages(pages)) == Some(Join("\n", PdfText.PageTexts(pages)))
    ensures PdfText.ConcatPages(pages) == Join("", PdfText.PageTexts(pages))
    ensures |ExtractText(Pages(pages)).value| == |PdfText.ConcatPages(pages)| + |pages| - 1
  {
    ExtractTextLength(pages);
    PdfText.ConcatLength(pages);
    PdfText.ConcatIsJoin(pages);
  }

  /** An unreadable file gives no text, where a stored text would not be read at all. */
  lemma ContractTextSource(c: UserContract)
    ensures c.textContent != "" ==> ContractText(c) == Some(c.textContent)
    ensures c.textContent == "" && c.pdfFile.Unreadable? ==> ContractText(c).None?
    ensures c.textContent == "" && c.pdfFile.Pages? ==>
      ContractText(c) == Some(Join("\n", PdfText.PageTexts(c.pdfFile.pages)))
  {
  }
}
