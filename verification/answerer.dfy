/**
 `pdf_answerer`: two rounds with a generative model. The first asks which pages of the document
 answer the question and parses the reply with `numbers_split`; when that yields no page the
 function answers nothing and makes no second call. Otherwise the named pages are cut out with
 `split_pdf` and the second round asks the question against that extract; when none of the named
 pages exists, the extract is a copy of the whole document.

 The model itself is an oracle: a function from the parts of a prompt to the reply text.
 */
module Answerer {
  import opened PageRefs
  import opened PdfPages

  /** One part of a prompt: a document or a piece of text. */
  datatype Part = Document(pdf: Pdf) | Text(text: string)

  /** The generative model, seen only through the text it returns for a prompt. */
  type Model = seq<Part> -> string

  const LocateInstruction: string := "What pages from the pdf answers the below question?"
  const NoRangesInstruction: string :=
    "Do not use hyphens to indicate ranges. Use only commas to separate pages (i.e ', ')."
    + " Again, do not use ranges to indicate pages. Write 0 if there is none."
  const BrevityInstruction: string := "Answer within 100 words or less."

  /** The first-round prompt: the whole document, the instruction, the question, the format rules. */
  function LocatePrompt(question: string, pdf: Pdf): seq<Part> {
    [Document(pdf), Text(LocateInstruction), Text(question), Text(NoRangesInstruction)]
  }

  /** The second-round prompt: the extracted document, the question, the length limit. */
  function AnswerPrompt(question: string, extract: Pdf): seq<Part> {
    [Document(extract), Text(question), Text(BrevityInstruction)]
  }

  /** What `pdf_answerer` returns, together with the prompts it sent, in order. */
  datatype Answer = Answer(pages: seq<nat>, summary: string, calls: seq<seq<Part>>)

  /** The pages the first round names, before they are checked against the document. */
  function Located(question: string, pdf: Pdf, model: Model): seq<nat> {
    NumbersSplit(model(LocatePrompt(question, pdf)))
  }

  /**
   `pdf_answerer`. The first call is always the page-locating prompt on the whole document. When
   the reply names no page, that is the only call and the answer is empty. Otherwise there is
   exactly one more call, even when every named page falls outside the document. Its document holds
   exactly the returned pages, which all lie inside the source, or the whole source when no named
   page exists; its reply is the summary.
   */
  function PdfAnswerer(question: string, pdf: Pdf, model: Model): (a: Answer)
    ensures 1 <= |a.calls| <= 2
    ensures a.calls[0] == LocatePrompt(question, pdf)
    ensures |a.calls| == 1 <==> Located(question, pdf, model) == []
    ensures |a.calls| == 1 ==> a.pages == [] && a.summary == ""
    ensures |a.calls| == 2 ==>
      && a.pages == KeepInRange(Located(question, pdf, model), |pdf.pages|)
      && a.summary == model(a.calls[1])
      && |a.calls[1]| == 3
      && a.calls[1][0].Document?
      && a.calls[1][1..] == [Text(question), Text(BrevityInstruction)]
      && (a.pages == [] ==> a.calls[1][0].pdf == pdf)
      && (a.pages != [] ==> |a.calls[1][0].pdf.pages| == |a.pages|)
      && (a.pages != [] ==>
            forall i :: 0 <= i < |a.pages| ==> a.calls[1][0].pdf.pages[i] == pdf.pages[a.pages[i]])
    ensures forall i :: 0 <= i < |a.pages| ==> a.pages[i] < |pdf.pages|
  {
    var first := LocatePrompt(question, pdf);
    var located := NumbersSplit(model(first));
    if |located| > 0 then
      var split := SplitPdf(pdf, located);
      var second := AnswerPrompt(question, split.pdf);
      Answer(split.kept, model(second), [first, second])
    else
      Answer([], "", [first])
  }

  /**
   A document with no relevant page: when the model replies "0" to the first round, the result is
   empty and the model is asked only once.
   */
  lemma ZeroReplyAnswersNothing(question: string, pdf: Pdf, model: Model)
    requires model(LocatePrompt(question, pdf)) == "0"
    ensures PdfAnswerer(question, pdf, model) == Answer([], "", [LocatePrompt(question, pdf)])
  {
    ZeroExample();
  }

  /**
   A reply that names pages, none of which exists, still leads to a second call. That call is made
   on the whole document and its reply is the summary, while no page is reported back.
   */
  lemma MissingPagesAskWholeDocument(question: string, pdf: Pdf, model: Model)
    requires Located(question, pdf, model) != []
    requires forall k :: 0 <= k < |Located(question, pdf, model)| ==>
      Located(question, pdf, model)[k] >= |pdf.pages|
    ensures var a := PdfAnswerer(question, pdf, model);
      && a.pages == []
      && a.calls == [LocatePrompt(question, pdf), AnswerPrompt(question, pdf)]
      && a.summary == model(AnswerPrompt(question, pdf))
  {
    var located := Located(question, pdf, model);
    KeepInRangeNoneValid(located, |pdf.pages|);
  }

  /**
   When every page the first round names exists in the document, the pages reported back are
   exactly those, in the order and with the repetitions of the reply.
   */
  lemma AnswerPagesAreLocatedPages(question: string, pdf: Pdf, model: Model)
    requires forall k :: 0 <= k < |Located(question, pdf, model)| ==>
      Located(question, pdf, model)[k] < |pdf.pages|
    ensures PdfAnswerer(question, pdf, model).pages == Located(question, pdf, model)
  {
    var located := Located(question, pdf, model);
    KeepInRangeAllValid(located, |pdf.pages|);
  }
}
