/** The parsed JSON payload the renderer reads. */
module Data {
  import opened Util

  /** A top-level payload field where the renderer expects an array:
      anything that is not an array (an object, a string, a missing
      field) fails the Array.isArray guard and is NotArray. */
  datatype Field<T> = Array(elems: seq<T>) | NotArray

  /** A glossary entry; `english` is the optional translation. */
  datatype Keyword = Keyword(title: string, english: Option<string>, content: string)

  /** One content item of a lecture, tagged by `kind` (the JSON `type`). */
  datatype Item = Item(kind: string, data: string, caption: string, attribute: Option<string>)

  /** A lecture: a title and its content items. */
  datatype Lecture = Lecture(title: string, items: seq<Item>)

  datatype Answer = Answer(answer: string)

  datatype Question = Question(question: string, answers: seq<Answer>)

  /** The three top-level fields a payload may carry; which one is read
      depends on the requested content type. */
  datatype Payload = Payload(keywords: Field<Keyword>, lectures: Field<Lecture>, questions: Field<Question>)

  /** JavaScript truthiness of an optional string field: an absent field
      and the empty string are both falsy. */
  predicate Truthy(o: Option<string>)
  {
    o.Some? && o.value != ""
  }
}
