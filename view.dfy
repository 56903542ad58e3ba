/** displayContent: the loading state, the title, the dispatch on the
    content type and the failure branch. The fetch is not modelled: its
    outcome arrives as `data`, None when nothing usable came back. */
module View {
  import opened Util
  import opened Dom
  import opened Data
  import opened Text
  import opened Render

  /** The heading text: "<Category> - <Type>". */
  function TitleText(category: string, contentType: string): (r: string)
    ensures |r| == |category| + 3 + |contentType|
    ensures r[..|category|] == Capitalize(category)
    ensures r[|category|..|category| + 3] == " - "
    ensures r[|category| + 3..] == Capitalize(contentType)
  {
    Capitalize(category) + " - " + Capitalize(contentType)
  }

  /** What the content region holds after a successful load: the output
      of the renderer the type selects, or nothing for any other type. */
  function Displayed(contentType: string, p: Payload): (r: seq<Node>)
    ensures r != [] ==> contentType == "keywords" || contentType == "lectures" || contentType == "questions"
    ensures contentType == "keywords" ==>
              |r| == if p.keywords.Array? then 2 * |p.keywords.elems| + EnglishCount(p.keywords.elems) else 0
    ensures contentType == "lectures" ==>
              |r| == if p.lectures.Array? then LecturesWidth(p.lectures.elems) else 0
    ensures contentType == "questions" ==>
              |r| == if p.questions.Array? then |p.questions.elems| + AnswerTotal(p.questions.elems) else 0
  {
    RenderedCounts(p);
    if contentType == "keywords" then Rendered(KeywordNodes, p.keywords)
    else if contentType == "lectures" then Rendered(LectureNodes, p.lectures)
    else if contentType == "questions" then Rendered(QuestionNodes, p.questions)
    else []
  }

  method DisplayContent(category: string, contentType: string, data: Option<Payload>,
                        content: Region?, title: Region?)
    requires content != null && title != null ==> content != title
    modifies content, title
    ensures content == null || title == null ==>
              (content != null ==> content.children == old(content.children))
              && (title != null ==> title.children == old(title.children))
    ensures content != null && title != null && data.Some? ==>
              title.children == [H2(TitleText(category, contentType))]
              && content.children == Displayed(contentType, data.value)
    ensures content != null && title != null && data.None? ==>
              title.children == [] && content.children == [FailureMessage]
  {
    if content == null || title == null {
      return;
    }
    content.ReplaceChildren(LoadingMessage);
    title.Clear();
    match data
    case Some(p) =>
      content.Clear();
      title.ReplaceChildren(H2(TitleText(category, contentType)));
      if contentType == "keywords" {
        DisplayKeywords(p, content);
      } else if contentType == "lectures" {
        DisplayLectures(p, content);
      } else if contentType == "questions" {
        DisplayQuestions(p, content);
      }
    case None =>
      content.ReplaceChildren(FailureMessage);
  }
}
