/** displayKeywords, displayLectures and displayQuestions: the node
    sequence each appends to the content region, as functions of the
    payload, the loops that append them, and what is proved about the
    sequences. */
module Render {
  import opened Util
  import opened Dom
  import opened Data

  const EnglishPrefix: string := "In English: "

  // ---------------------------------------------------------------------
  // Keywords

  /** One keyword: its heading, the translation paragraph only when the
      english field is truthy, then always the content paragraph. */
  function KeywordNodes(k: Keyword): (r: seq<Node>)
    ensures |r| == if Truthy(k.english) then 3 else 2
    ensures r[0] == H3(k.title) && r[|r| - 1] == P(k.content)
    ensures |r| == 3 ==> r[1] == P(EnglishPrefix + k.english.value)
  {
    [H3(k.title)]
    + (if Truthy(k.english) then [P(EnglishPrefix + k.english.value)] else [])
    + [P(k.content)]
  }

  /** The number of keywords whose english field is truthy. */
  function EnglishCount(ks: seq<Keyword>): nat
  {
    if ks == [] then 0 else (if Truthy(ks[0].english) then 1 else 0) + EnglishCount(ks[1..])
  }

  /** N keywords give 2N nodes plus one per truthy translation. */
  lemma {:induction false} KeywordsCount(ks: seq<Keyword>)
    ensures |FlatMap(KeywordNodes, ks)| == 2 * |ks| + EnglishCount(ks)
  {
    if ks != [] {
      KeywordsCount(ks[1..]);
    }
  }

  /** Keyword i occupies its own block: a heading with its title, then
      one or two paragraphs, the last holding its content. */
  lemma KeywordBlock(ks: seq<Keyword>, i: nat)
    requires i < |ks|
    ensures var o := |FlatMap(KeywordNodes, ks[..i])|;
            var w := if Truthy(ks[i].english) then 3 else 2;
            var ns := FlatMap(KeywordNodes, ks);
            o + w <= |ns| && ns[o] == H3(ks[i].title) && ns[o + w - 1] == P(ks[i].content)
            && (w == 3 ==> ns[o + 1] == P(EnglishPrefix + ks[i].english.value))
  {
    FlatMapBlock(KeywordNodes, ks, i);
    var o := |FlatMap(KeywordNodes, ks[..i])|;
    var ns := FlatMap(KeywordNodes, ks);
    var b := KeywordNodes(ks[i]);
    assert ns[o..o + |b|] == b;
    assert ns[o] == b[0] && ns[o + |b| - 1] == b[|b| - 1];
    if Truthy(ks[i].english) {
      assert b == [H3(ks[i].title), P(EnglishPrefix + ks[i].english.value), P(ks[i].content)];
      assert ns[o + 1] == b[1];
    } else {
      assert b == [H3(ks[i].title), P(ks[i].content)];
    }
  }

  method DisplayKeywords(itemData: Payload, content: Region)
    modifies content
    ensures old(content.children) <= content.children
    ensures content.children == old(content.children) + Rendered(KeywordNodes, itemData.keywords)
    ensures itemData.keywords.NotArray? ==> content.children == old(content.children)
  {
    match itemData.keywords
    case NotArray =>
    case Array(ks) => AppendKeywords(ks, content);
  }

  /** The per-keyword callback of displayKeywords. */
  method DisplayKeyword(keyword: Keyword, content: Region)
    modifies content
    ensures content.children == old(content.children) + KeywordNodes(keyword)
  {
    content.AppendChild(H3(keyword.title));
    if Truthy(keyword.english) {
      content.AppendChild(P(EnglishPrefix + keyword.english.value));
    }
    content.AppendChild(P(keyword.content));
  }

  /** The forEach over the keyword array. */
  method AppendKeywords(ks: seq<Keyword>, content: Region)
    modifies content
    ensures content.children == old(content.children) + FlatMap(KeywordNodes, ks)
  {
    var i := 0;
    while i < |ks|
      invariant 0 <= i <= |ks|
      invariant content.children == old(content.children) + FlatMap(KeywordNodes, ks[..i])
    {
      var keyword := ks[i];
      DisplayKeyword(keyword, content);
      assert ks[..i + 1] == ks[..i] + [keyword];
      FlatMapSnoc(KeywordNodes, ks[..i], keyword);
      i := i + 1;
    }
    assert ks[..i] == ks;
  }

  // ---------------------------------------------------------------------
  // Lectures

  /** How many nodes an item of the given kind produces; unknown kinds
      produce none. */
  function Width(kind: string): nat
  {
    if kind == "image" then 2
    else if kind == "text" || kind == "code" || kind == "quote" then 1
    else 0
  }

  predicate Recognised(kind: string)
  {
    kind == "text" || kind == "image" || kind == "code" || kind == "quote"
  }

  /** One content item, dispatched on its kind. The quote's footer is
      present exactly when the attribute is truthy. */
  function ItemNodes(it: Item): (r: seq<Node>)
    ensures |r| == Width(it.kind)
    ensures r == [] <==> !Recognised(it.kind)
    ensures it.kind == "image" ==> r[0] == Img(it.data, it.caption) && r[1] == P(r[0].alt)
  {
    if it.kind == "text" then [P(it.data)]
    else if it.kind == "image" then [Img(it.data, it.caption), P(it.caption)]
    else if it.kind == "code" then [Pre(it.data)]
    else if it.kind == "quote" then
      [Blockquote(it.data, if Truthy(it.attribute) then it.attribute else None)]
    else []
  }

  /** A lecture: its heading, then its items' nodes in item order. */
  function LectureNodes(l: Lecture): (r: seq<Node>)
    ensures |r| == 1 + ItemsWidth(l.items)
    ensures r[0] == H3(l.title)
  {
    ItemsCount(l.items);
    [H3(l.title)] + FlatMap(ItemNodes, l.items)
  }

  function ItemsWidth(items: seq<Item>): nat
  {
    if items == [] then 0 else Width(items[0].kind) + ItemsWidth(items[1..])
  }

  function LecturesWidth(ls: seq<Lecture>): nat
  {
    if ls == [] then 0 else 1 + ItemsWidth(ls[0].items) + LecturesWidth(ls[1..])
  }

  lemma {:induction false} ItemsCount(items: seq<Item>)
    ensures |FlatMap(ItemNodes, items)| == ItemsWidth(items)
  {
    if items != [] {
      ItemsCount(items[1..]);
    }
  }

  /** One heading per lecture plus the widths of all its items. */
  lemma {:induction false} LecturesCount(ls: seq<Lecture>)
    ensures |FlatMap(LectureNodes, ls)| == LecturesWidth(ls)
  {
    if ls != [] {
      ItemsCount(ls[0].items);
      LecturesCount(ls[1..]);
    }
  }

  /** Lecture i's heading comes first in its block and is followed at once
      by the nodes of all its items. */
  lemma LectureBlock(ls: seq<Lecture>, i: nat)
    requires i < |ls|
    ensures var o := |FlatMap(LectureNodes, ls[..i])|;
            var body := FlatMap(ItemNodes, ls[i].items);
            var ns := FlatMap(LectureNodes, ls);
            o + 1 + |body| <= |ns| && ns[o] == H3(ls[i].title) && ns[o + 1..o + 1 + |body|] == body
  {
    FlatMapBlock(LectureNodes, ls, i);
    var o := |FlatMap(LectureNodes, ls[..i])|;
    var ns := FlatMap(LectureNodes, ls);
    var b := LectureNodes(ls[i]);
    assert ns[o..o + |b|] == b;
    assert ns[o] == b[0];
    assert ns[o + 1..o + |b|] == b[1..];
  }

  /** Item j's nodes appear, unchanged, right after those of the items
      before it: no recognised item is dropped or moved. */
  lemma ItemBlock(items: seq<Item>, j: nat)
    requires j < |items|
    ensures var o := ItemsWidth(items[..j]);
            o + Width(items[j].kind) <= |FlatMap(ItemNodes, items)|
            && FlatMap(ItemNodes, items)[o..o + Width(items[j].kind)] == ItemNodes(items[j])
  {
    FlatMapBlock(ItemNodes, items, j);
    ItemsCount(items[..j]);
  }

  /** The per-item callback of displayLectures: a closed dispatch on the
      item's kind; the quote's footer is attached to the blockquote before
      the blockquote is appended. */
  method DisplayItem(sub: Item, content: Region)
    modifies content
    ensures content.children == old(content.children) + ItemNodes(sub)
  {
    if sub.kind == "text" {
      content.AppendChild(P(sub.data));
    } else if sub.kind == "image" {
      content.AppendChild(Img(sub.data, sub.caption));
      content.AppendChild(P(sub.caption));
    } else if sub.kind == "code" {
      content.AppendChild(Pre(sub.data));
    } else if sub.kind == "quote" {
      var quote := Blockquote(sub.data, None);
      if Truthy(sub.attribute) {
        quote := quote.(footer := sub.attribute);
      }
      content.AppendChild(quote);
    }
  }

  method DisplayLectures(itemData: Payload, content: Region)
    modifies content
    ensures old(content.children) <= content.children
    ensures content.children == old(content.children) + Rendered(LectureNodes, itemData.lectures)
    ensures itemData.lectures.NotArray? ==> content.children == old(content.children)
  {
    match itemData.lectures
    case NotArray =>
    case Array(ls) => AppendLectures(ls, content);
  }

  /** The per-lecture callback of displayLectures: the heading, then the
      lecture's items. */
  method DisplayLecture(lecture: Lecture, content: Region)
    modifies content
    ensures content.children == old(content.children) + LectureNodes(lecture)
  {
    content.AppendChild(H3(lecture.title));
    AppendItems(lecture.items, content);
  }

  /** The outer forEach over the lecture array. */
  method AppendLectures(ls: seq<Lecture>, content: Region)
    modifies content
    ensures content.children == old(content.children) + FlatMap(LectureNodes, ls)
  {
    var i := 0;
    while i < |ls|
      invariant 0 <= i <= |ls|
      invariant content.children == old(content.children) + FlatMap(LectureNodes, ls[..i])
    {
      var lecture := ls[i];
      DisplayLecture(lecture, content);
      assert ls[..i + 1] == ls[..i] + [lecture];
      FlatMapSnoc(LectureNodes, ls[..i], lecture);
      i := i + 1;
    }
    assert ls[..i] == ls;
  }

  /** The inner forEach over one lecture's content items. */
  method AppendItems(items: seq<Item>, content: Region)
    modifies content
    ensures content.children == old(content.children) + FlatMap(ItemNodes, items)
  {
    var j := 0;
    while j < |items|
      invariant 0 <= j <= |items|
      invariant content.children == old(content.children) + FlatMap(ItemNodes, items[..j])
    {
      var sub := items[j];
      DisplayItem(sub, content);
      assert items[..j + 1] == items[..j] + [sub];
      FlatMapSnoc(ItemNodes, items[..j], sub);
      j := j + 1;
    }
    assert items[..j] == items;
  }

  // ---------------------------------------------------------------------
  // Questions

  function AnswerNodes(a: Answer): seq<Node>
  {
    [P(a.answer)]
  }

  /** A question: its heading, then one paragraph per answer in order. */
  function QuestionNodes(q: Question): (r: seq<Node>)
    ensures |r| == 1 + |q.answers|
    ensures r[0] == H3(q.question)
    ensures forall j :: 0 <= j < |q.answers| ==> r[1 + j] == P(q.answers[j].answer)
  {
    AnswersAsParagraphs(q.answers);
    [H3(q.question)] + FlatMap(AnswerNodes, q.answers)
  }

  function AnswerTotal(qs: seq<Question>): nat
  {
    if qs == [] then 0 else |qs[0].answers| + AnswerTotal(qs[1..])
  }

  /** The answers of a question become paragraphs, one each, in order. */
  lemma {:induction false} AnswersAsParagraphs(answers: seq<Answer>)
    ensures |FlatMap(AnswerNodes, answers)| == |answers|
    ensures forall j :: 0 <= j < |answers| ==> FlatMap(AnswerNodes, answers)[j] == P(answers[j].answer)
  {
    if answers != [] {
      AnswersAsParagraphs(answers[1..]);
    }
  }

  /** Each question contributes one heading plus one node per answer. */
  lemma {:induction false} QuestionsCount(qs: seq<Question>)
    ensures |FlatMap(QuestionNodes, qs)| == |qs| + AnswerTotal(qs)
  {
    if qs != [] {
      AnswersAsParagraphs(qs[0].answers);
      QuestionsCount(qs[1..]);
    }
  }

  method DisplayQuestions(itemData: Payload, content: Region)
    modifies content
    ensures old(content.children) <= content.children
    ensures content.children == old(content.children) + Rendered(QuestionNodes, itemData.questions)
    ensures itemData.questions.NotArray? ==> content.children == old(content.children)
  {
    match itemData.questions
    case NotArray =>
    case Array(qs) => AppendQuestions(qs, content);
  }

  /** The per-question callback of displayQuestions: the heading, then
      the answers. */
  method DisplayQuestion(question: Question, content: Region)
    modifies content
    ensures content.children == old(content.children) + QuestionNodes(question)
  {
    content.AppendChild(H3(question.question));
    AppendAnswers(question.answers, content);
  }

  /** The outer forEach over the question array. */
  method AppendQuestions(qs: seq<Question>, content: Region)
    modifies content
    ensures content.children == old(content.children) + FlatMap(QuestionNodes, qs)
  {
    var i := 0;
    while i < |qs|
      invariant 0 <= i <= |qs|
      invariant content.children == old(content.children) + FlatMap(QuestionNodes, qs[..i])
    {
      var question := qs[i];
      DisplayQuestion(question, content);
      assert qs[..i + 1] == qs[..i] + [question];
      FlatMapSnoc(QuestionNodes, qs[..i], question);
      i := i + 1;
    }
    assert qs[..i] == qs;
  }

  /** The inner forEach over one question's answers. */
  method AppendAnswers(answers: seq<Answer>, content: Region)
    modifies content
    ensures content.children == old(content.children) + FlatMap(AnswerNodes, answers)
  {
    var j := 0;
    while j < |answers|
      invariant 0 <= j <= |answers|
      invariant content.children == old(content.children) + FlatMap(AnswerNodes, answers[..j])
    {
      var answer := answers[j];
      content.AppendChild(P(answer.answer));
      assert answers[..j + 1] == answers[..j] + [answer];
      FlatMapSnoc(AnswerNodes, answers[..j], answer);
      j := j + 1;
    }
    assert answers[..j] == answers;
  }

  // ---------------------------------------------------------------------
  // The Array.isArray guard shared by the three renderers

  /** What a renderer appends for a top-level field: the flattened nodes
      of its elements when it is an array, nothing otherwise. */
  function Rendered<T>(f: T -> seq<Node>, field: Field<T>): (r: seq<Node>)
    ensures field.NotArray? ==> r == []
    ensures field.Array? ==>
              forall i :: 0 <= i <= |field.elems| ==> FlatMap(f, field.elems[..i]) <= r
  {
    if field.Array? then FlatMapPrefixes(f, field.elems); FlatMap(f, field.elems) else []
  }

  /** How many nodes each renderer appends for a payload's field. */
  lemma RenderedCounts(p: Payload)
    ensures |Rendered(KeywordNodes, p.keywords)|
            == if p.keywords.Array? then 2 * |p.keywords.elems| + EnglishCount(p.keywords.elems) else 0
    ensures |Rendered(LectureNodes, p.lectures)|
            == if p.lectures.Array? then LecturesWidth(p.lectures.elems) else 0
    ensures |Rendered(QuestionNodes, p.questions)|
            == if p.questions.Array? then |p.questions.elems| + AnswerTotal(p.questions.elems) else 0
  {
    if p.keywords.Array? { KeywordsCount(p.keywords.elems); }
    if p.lectures.Array? { LecturesCount(p.lectures.elems); }
    if p.questions.Array? { QuestionsCount(p.questions.elems); }
  }
}
