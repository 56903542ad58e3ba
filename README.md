# Content viewer renderer: a Dafny model

This project models the rendering core of a browser-side viewer for course material. The viewer takes a category (`html`, `css`, `js`) and a content type (`keywords`, `lectures`, `questions`), loads a JSON payload, writes a title, and appends display nodes to a content region. The model covers `displayKeywords`, `displayLectures`, `displayQuestions`, `capitalizeFirstLetter` and the loading, title, dispatch and failure logic of `displayContent` in `script.js`.

Layout:

- `util.dfy` (`Util`): `Option`, and `FlatMap`, which concatenates per-element outputs in order, with lemmas about concatenation and block positions.
- `dom.dfy` (`Dom`): the `Node` datatype (`H2`, `H3`, `P`, `Img`, `Pre`, `Blockquote` with an optional nested footer, and `Alert` for the red error paragraph). `Region` is a class whose `children: seq<Node>` is changed by `AppendChild`, `Clear` and `ReplaceChildren`.
- `data.dfy` (`Data`): the parsed payload. A top-level field is `Array(seq)` or `NotArray`, which models the `Array.isArray` guard. `Truthy` is JavaScript truthiness of an optional string: an absent field and `""` are both falsy.
- `text.dfy` (`Text`): `capitalizeFirstLetter`.
- `render.dfy` (`Render`):
  - functions that give the node sequence each renderer appends;
  - the renderers themselves, as methods proved equal to those functions. Each `forEach` is a loop method, and each `forEach` callback is a method of its own;
  - lemmas about node counts and the position of each element's block.
- `readback.dfy` (`ReadBack`): readers that turn a rendered node sequence back into a payload. The round-trip lemmas show that the renderers keep every keyword, lecture, question and answer in order. They also keep every recognised item in order, including an image's caption paragraph, which must repeat the image's alt text. What does not come back is exactly what the renderers never display:
  - a falsy translation or attribute;
  - an item of unknown kind;
  - the caption of a text, code or quote item;
  - the attribute of any item that is not a quote.
- `view.dfy` (`View`): `displayContent`, with the fetch result as an input.

On a failed load, `fetchContent` first writes a message naming the type and category (script.js:10). `displayContent` then replaces it with "Failed to load content." (script.js:40), so the model's final state holds only that message.

## Model

| member | source | states |
|---|---|---|
| Text.ToUpper | script.js:45 | upper-case of one character: a lower-case ASCII letter becomes its capital, any other character is unchanged, and the result is never an ASCII lower-case letter |
| Text.Capitalize | script.js:44-46 | same length; `""` stays `""`; only the first character is upper-cased; every later character is unchanged; the result equals the input exactly when the input is empty or does not start with an ASCII lower-case letter |
| Text.CapitalizeIdempotent | script.js:44-46 | capitalizing twice is the same as capitalizing once |
| Render.KeywordNodes | script.js:92-104 | one keyword's nodes: `H3(title)` first and `P(content)` last; the `In English: …` paragraph sits between them exactly when the english field is truthy (3 nodes, otherwise 2) |
| Render.DisplayKeyword | script.js:91-105 | the per-keyword callback appends exactly that keyword's nodes after the old children |
| Render.AppendKeywords | script.js:91-105 | the loop over the keyword array appends the keywords' nodes in array order |
| Render.KeywordsCount | script.js:91-105 | N keywords render to 2·N nodes plus one per keyword whose english field is truthy |
| Render.KeywordBlock | script.js:91-105 | keyword i's block starts with `H3(title)`; it has the `In English: …` paragraph only when english is truthy; its last node is always `P(content)` |
| Render.DisplayKeywords | script.js:89-109 | the loop appends exactly the keyword nodes in keyword order; old children stay a prefix; a non-array field leaves the children unchanged |
| Render.ItemNodes | script.js:55-81 | text gives 1 node, image 2 (`Img(data, caption)` then a paragraph repeating the alt text), code 1, quote 1 (its footer is inside the blockquote); any other kind gives none, and only unknown kinds give none |
| Render.DisplayItem | script.js:55-81 | the per-item callback appends exactly the item's nodes; the quote's footer is set on the blockquote before it is appended |
| Render.AppendItems | script.js:55-82 | the loop over a lecture's items appends the items' nodes in item order |
| Render.LectureNodes | script.js:51-82 | a lecture's nodes start with `H3(title)` and number one plus the widths of its items |
| Render.DisplayLecture | script.js:50-83 | the per-lecture callback appends the heading and then all the item nodes |
| Render.AppendLectures | script.js:50-83 | the loop over the lecture array appends the lectures' nodes in array order |
| Render.ItemsCount | script.js:55-82 | a lecture's item nodes number the sum of its items' widths |
| Render.ItemBlock | script.js:55-82 | item j's nodes appear unchanged, right after the nodes of the items before it |
| Render.LecturesCount | script.js:50-83 | one heading per lecture plus the widths of all its items |
| Render.LectureBlock | script.js:50-83 | lecture i's `H3(title)` comes first in its block and is followed at once by all its item nodes |
| Render.DisplayLectures | script.js:48-87 | the nested loops append exactly the lecture nodes in order; old children stay a prefix; a non-array field leaves the children unchanged |
| Render.AnswersAsParagraphs | script.js:118-122 | answer j becomes paragraph j, and there is one paragraph per answer |
| Render.QuestionNodes | script.js:114-122 | a question's nodes are `H3(question)` followed by exactly one paragraph per answer, paragraph j holding answer j |
| Render.AppendAnswers | script.js:118-122 | the loop over the answers appends one paragraph per answer, in answer order |
| Render.DisplayQuestion | script.js:113-123 | the per-question callback appends the heading and then the answer paragraphs |
| Render.AppendQuestions | script.js:113-123 | the loop over the question array appends the questions' nodes in array order |
| Render.QuestionsCount | script.js:113-122 | each question contributes one heading plus one paragraph per answer |
| Render.DisplayQuestions | script.js:111-127 | the nested loops append exactly the question nodes in order; old children stay a prefix; a non-array field leaves the children unchanged |
| Render.Rendered | script.js:49-86 | the `Array.isArray` guard: a non-array field gives no nodes; for an array, the nodes of every leading run of elements are a prefix of the whole, so output follows array order (the same guard is at script.js:90 and script.js:112) |
| Render.RenderedCounts | script.js:48-127 | each renderer's node count for a payload field, and zero for a non-array field |
| ReadBack.KeywordsRoundTrip | script.js:91-105 | reading the rendered nodes back gives every keyword in order, with a falsy translation read as absent |
| ReadBack.AnswersLeading | script.js:118-122 | there is one paragraph per answer, and those paragraphs are exactly the ones before the next node that is not a paragraph |
| ReadBack.AnswersRoundTrip | script.js:118-122 | the answer paragraphs read back as exactly the answers, in order |
| ReadBack.QuestionsRoundTrip | script.js:113-122 | reading the rendered nodes back gives exactly the original questions and answers |
| ReadBack.ItemsRoundTrip | script.js:55-82 | reading item nodes back gives every recognised item in order, with the image caption taken from a paragraph that must equal the alt text. Unknown kinds are dropped; fields a kind does not display are emptied; a falsy attribute is absent, and a truthy one is the blockquote's footer |
| ReadBack.LecturesRoundTrip | script.js:50-83 | reading the rendered nodes back gives every lecture in order, each with all its recognised items in order |
| View.TitleText | script.js:30 | the title is the capitalized category, then `" - "`, then the capitalized type |
| View.Displayed | script.js:32-38 | the dispatch on the content type: only `keywords`, `lectures` and `questions` can give nodes; for each of them the node count is that renderer's count for the payload |
| View.DisplayContent | script.js:14-42 | a missing region: nothing changes. With data: the title is the one heading and the content is the selected renderer's output on a cleared region (empty for an unknown type). Without data: the title is empty and the content is only the failure message |

## Left out

- The fetch and JSON parsing in `fetchContent` (script.js:1-12) are network I/O. Their outcome is the `data: Option<Payload>` input. `None` stands for a failed fetch or a falsy parsed value.
- The inline error that `fetchContent` writes on failure (script.js:10) is not modelled. `displayContent` overwrites it at once, and only the final state is modelled.
- The `async`/`await` suspension, and the races between overlapping clicks, are concurrency. They are not modelled.
- The loading placeholder is only an intermediate state: `DisplayContent` writes it, but its contract speaks only of the final state.
- DOM lookups by id, HTML strings in `innerHTML`, inline styles and `console.error` logging are browser plumbing. The messages are the constants `LoadingMessage` and `FailureMessage`, and a missing region is a `null` argument. The two regions are distinct objects, which `DisplayContent` requires because they have different ids.
- Button wiring and `showSubCategoryButtons` (script.js:129-148) are UI glue. They are not modelled.
- Text.ToUpper: it maps only ASCII `a`-`z`. JavaScript's `toUpperCase` also maps other Unicode letters, and some of them (such as `ß`) to several characters.
- The payload is typed. So the model does not cover crashes on:
  - a missing `answers` or `content` array inside an element;
  - fields that are not strings, such as an undefined caption that becomes the alt text `"undefined"`;
  - truthy values that are not strings.
