/** Readers that recover a payload from the node sequence a renderer
    appended. Each round-trip lemma says that rendering keeps every
    element, in order, and loses only what the renderer deliberately
    skips: falsy translations and attributes, and items of unknown kind. */
module ReadBack {
  import opened Util
  import opened Dom
  import opened Data
  import opened Render

  // ---------------------------------------------------------------------
  // Keywords

  function StripEnglish(t: string): string
  {
    if |EnglishPrefix| <= |t| && t[..|EnglishPrefix|] == EnglishPrefix then t[|EnglishPrefix|..] else t
  }

  /** Heading, then two paragraphs (translation and content) or one
      (content); a heading therefore always starts the next keyword. */
  function ReadKeywords(ns: seq<Node>): seq<Keyword>
    decreases |ns|
  {
    if 3 <= |ns| && ns[0].H3? && ns[1].P? && ns[2].P? then
      [Keyword(ns[0].text, Some(StripEnglish(ns[1].text)), ns[2].text)] + ReadKeywords(ns[3..])
    else if 2 <= |ns| && ns[0].H3? && ns[1].P? then
      [Keyword(ns[0].text, None, ns[1].text)] + ReadKeywords(ns[2..])
    else []
  }

  /** The keyword as the renderer sees it: a falsy translation is absent. */
  function NormalKeywords(ks: seq<Keyword>): seq<Keyword>
  {
    if ks == [] then []
    else [ks[0].(english := if Truthy(ks[0].english) then ks[0].english else None)] + NormalKeywords(ks[1..])
  }

  lemma KeywordsStartWithHeading(ks: seq<Keyword>)
    ensures FlatMap(KeywordNodes, ks) == [] || FlatMap(KeywordNodes, ks)[0].H3?
  {
  }

  lemma {:induction false} KeywordsRoundTrip(ks: seq<Keyword>)
    ensures ReadKeywords(FlatMap(KeywordNodes, ks)) == NormalKeywords(ks)
  {
    if ks != [] {
      var k := ks[0];
      var rest := FlatMap(KeywordNodes, ks[1..]);
      KeywordsStartWithHeading(ks[1..]);
      KeywordsRoundTrip(ks[1..]);
      var ns := KeywordNodes(k) + rest;
      if Truthy(k.english) {
        var line := EnglishPrefix + k.english.value;
        assert line[..|EnglishPrefix|] == EnglishPrefix && line[|EnglishPrefix|..] == k.english.value;
        assert ns[3..] == rest;
      } else {
        assert ns[2..] == rest;
      }
    }
  }

  // ---------------------------------------------------------------------
  // Questions

  /** The number of paragraphs at the front of ns. */
  function LeadingParagraphs(ns: seq<Node>): (k: nat)
    ensures k <= |ns|
  {
    if ns != [] && ns[0].P? then 1 + LeadingParagraphs(ns[1..]) else 0
  }

  function ReadAnswers(ns: seq<Node>): seq<Answer>
  {
    if ns == [] then [] else [Answer(if ns[0].P? then ns[0].text else "")] + ReadAnswers(ns[1..])
  }

  /** Heading, then every paragraph up to the next heading is an answer. */
  function ReadQuestions(ns: seq<Node>): seq<Question>
    decreases |ns|
  {
    if ns != [] && ns[0].H3? then
      var k := LeadingParagraphs(ns[1..]);
      [Question(ns[0].text, ReadAnswers(ns[1..1 + k]))] + ReadQuestions(ns[1 + k..])
    else []
  }

  /** The answer paragraphs are exactly the paragraphs before the next
      non-paragraph node. */
  lemma {:induction false} AnswersLeading(answers: seq<Answer>, tail: seq<Node>)
    requires tail == [] || !tail[0].P?
    ensures |FlatMap(AnswerNodes, answers)| == |answers|
    ensures LeadingParagraphs(FlatMap(AnswerNodes, answers) + tail) == |answers|
  {
    var ns := FlatMap(AnswerNodes, answers);
    if answers == [] {
      assert ns + tail == tail;
    } else {
      AnswersLeading(answers[1..], tail);
      var rest := FlatMap(AnswerNodes, answers[1..]);
      assert ns == [P(answers[0].answer)] + rest;
      assert (ns + tail)[0] == P(answers[0].answer);
      assert (ns + tail)[1..] == rest + tail;
    }
  }

  /** The answer paragraphs read back as the answers. */
  lemma {:induction false} AnswersRoundTrip(answers: seq<Answer>)
    ensures ReadAnswers(FlatMap(AnswerNodes, answers)) == answers
  {
    if answers != [] {
      AnswersRoundTrip(answers[1..]);
      var ns := FlatMap(AnswerNodes, answers);
      var rest := FlatMap(AnswerNodes, answers[1..]);
      assert ns == [P(answers[0].answer)] + rest;
      assert ns[1..] == rest;
      assert answers == [answers[0]] + answers[1..];
    }
  }

  /** A heading followed by paragraphs up to a non-paragraph reads as one
      question whose answers are what those paragraphs read as. */
  lemma ReadQuestionsStep(title: string, body: seq<Node>, rest: seq<Node>)
    requires LeadingParagraphs(body + rest) == |body|
    ensures ReadQuestions([H3(title)] + (body + rest)) == [Question(title, ReadAnswers(body))] + ReadQuestions(rest)
  {
    var tail := body + rest;
    var ns := [H3(title)] + tail;
    assert ns[1..] == tail;
    var k := LeadingParagraphs(ns[1..]);
    assert k == |body|;
    assert ns[1..1 + k] == body by { assert tail[..|body|] == body; }
    assert ns[1 + k..] == rest by { assert tail[|body|..] == rest; }
  }

  /** One question's nodes read back as that question, followed by what
      the rest reads as. */
  lemma ReadQuestionsCons(q: Question, rest: seq<Node>)
    requires rest == [] || rest[0].H3?
    ensures ReadQuestions(QuestionNodes(q) + rest) == [q] + ReadQuestions(rest)
  {
    var body := FlatMap(AnswerNodes, q.answers);
    assert QuestionNodes(q) + rest == [H3(q.question)] + (body + rest);
    AnswersLeading(q.answers, rest);
    AnswersRoundTrip(q.answers);
    ReadQuestionsStep(q.question, body, rest);
  }

  /** Questions come back exactly: no answer is lost, added or moved. */
  lemma {:induction false} QuestionsRoundTrip(qs: seq<Question>)
    ensures ReadQuestions(FlatMap(QuestionNodes, qs)) == qs
  {
    if qs != [] {
      var rest := FlatMap(QuestionNodes, qs[1..]);
      assert rest == [] || rest[0].H3?;
      ReadQuestionsCons(qs[0], rest);
      QuestionsRoundTrip(qs[1..]);
    }
  }

  // ---------------------------------------------------------------------
  // Lectures

  /** The number of nodes before the first heading of ns. */
  function UntilHeading(ns: seq<Node>): (k: nat)
    ensures k <= |ns|
  {
    if ns == [] || ns[0].H3? then 0 else 1 + UntilHeading(ns[1..])
  }

  /** Reads item nodes back; an image is its img element followed by a
      caption paragraph that repeats its alt text. */
  function ReadItems(ns: seq<Node>): seq<Item>
    decreases |ns|
  {
    if ns == [] then []
    else match ns[0]
      case P(t) => [Item("text", t, "", None)] + ReadItems(ns[1..])
      case Img(src, alt) =>
        if 2 <= |ns| && ns[1] == P(alt) then [Item("image", src, alt, None)] + ReadItems(ns[2..]) else []
      case Pre(t) => [Item("code", t, "", None)] + ReadItems(ns[1..])
      case Blockquote(t, footer) => [Item("quote", t, "", footer)] + ReadItems(ns[1..])
      case _ => []
  }

  /** Heading, then every node up to the next heading is an item node. */
  function ReadLectures(ns: seq<Node>): seq<Lecture>
    decreases |ns|
  {
    if ns != [] && ns[0].H3? then
      var k := UntilHeading(ns[1..]);
      [Lecture(ns[0].text, ReadItems(ns[1..1 + k]))] + ReadLectures(ns[1 + k..])
    else []
  }

  /** An item reduced to what the renderer shows of it: an unknown kind
      disappears, fields its kind does not display are emptied, and a
      falsy attribute is absent. */
  function NormalItem(it: Item): seq<Item>
  {
    if it.kind == "text" then [Item("text", it.data, "", None)]
    else if it.kind == "image" then [Item("image", it.data, it.caption, None)]
    else if it.kind == "code" then [Item("code", it.data, "", None)]
    else if it.kind == "quote" then [Item("quote", it.data, "", if Truthy(it.attribute) then it.attribute else None)]
    else []
  }

  function NormalLectures(ls: seq<Lecture>): seq<Lecture>
  {
    if ls == [] then [] else [Lecture(ls[0].title, FlatMap(NormalItem, ls[0].items))] + NormalLectures(ls[1..])
  }

  lemma {:induction false} ItemsRoundTrip(items: seq<Item>)
    ensures ReadItems(FlatMap(ItemNodes, items)) == FlatMap(NormalItem, items)
  {
    if items != [] {
      var it := items[0];
      var rest := FlatMap(ItemNodes, items[1..]);
      ItemsRoundTrip(items[1..]);
      var ns := ItemNodes(it) + rest;
      if it.kind == "image" {
        assert ns[2..] == rest;
      } else if Recognised(it.kind) {
        assert ns[1..] == rest;
      } else {
        assert ns == rest;
      }
    }
  }

  /** An item's own nodes hold no heading, so they are all skipped. */
  lemma ItemUntilHeading(it: Item, rest: seq<Node>)
    ensures UntilHeading(ItemNodes(it) + rest) == |ItemNodes(it)| + UntilHeading(rest)
  {
    var x := ItemNodes(it);
    if |x| == 2 {
      assert (x + rest)[1..] == [x[1]] + rest;
      assert ([x[1]] + rest)[1..] == rest;
    } else if |x| == 1 {
      assert (x + rest)[1..] == rest;
    } else {
      assert x + rest == rest;
    }
  }

  /** Item nodes hold no heading, so the next lecture's heading ends them. */
  lemma {:induction false} ItemsUntilHeading(items: seq<Item>, rest: seq<Node>)
    requires rest == [] || rest[0].H3?
    ensures UntilHeading(FlatMap(ItemNodes, items) + rest) == |FlatMap(ItemNodes, items)|
  {
    if items == [] {
      assert FlatMap(ItemNodes, items) + rest == rest;
    } else {
      var mid := FlatMap(ItemNodes, items[1..]) + rest;
      ItemsUntilHeading(items[1..], rest);
      assert FlatMap(ItemNodes, items) + rest == ItemNodes(items[0]) + mid;
      ItemUntilHeading(items[0], mid);
    }
  }

  /** A heading followed by heading-free nodes reads as one lecture whose
      items are what those nodes read as. */
  lemma ReadLecturesStep(title: string, body: seq<Node>, rest: seq<Node>)
    requires UntilHeading(body + rest) == |body|
    ensures ReadLectures([H3(title)] + (body + rest)) == [Lecture(title, ReadItems(body))] + ReadLectures(rest)
  {
    var tail := body + rest;
    var ns := [H3(title)] + tail;
    assert ns[1..] == tail;
    var k := UntilHeading(ns[1..]);
    assert k == |body|;
    assert ns[1..1 + k] == body by { assert tail[..|body|] == body; }
    assert ns[1 + k..] == rest by { assert tail[|body|..] == rest; }
  }

  /** One lecture's nodes read back as that lecture, normalised, followed
      by what the rest reads as. */
  lemma ReadLecturesCons(l: Lecture, rest: seq<Node>)
    requires rest == [] || rest[0].H3?
    ensures ReadLectures(LectureNodes(l) + rest)
            == [Lecture(l.title, FlatMap(NormalItem, l.items))] + ReadLectures(rest)
  {
    var body := FlatMap(ItemNodes, l.items);
    assert LectureNodes(l) + rest == [H3(l.title)] + (body + rest);
    ItemsUntilHeading(l.items, rest);
    ReadLecturesStep(l.title, body, rest);
    ItemsRoundTrip(l.items);
  }

  /** Lectures come back in order, each with all its recognised items in
      order. */
  lemma {:induction false} LecturesRoundTrip(ls: seq<Lecture>)
    ensures ReadLectures(FlatMap(LectureNodes, ls)) == NormalLectures(ls)
  {
    if ls != [] {
      var rest := FlatMap(LectureNodes, ls[1..]);
      assert rest == [] || rest[0].H3?;
      ReadLecturesCons(ls[0], rest);
      LecturesRoundTrip(ls[1..]);
    }
  }
}
